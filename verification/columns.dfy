/** Column-label normalisation done by `load_sales_data` (app.py:19-46):
    every string label loses its quote characters and surrounding whitespace,
    then a missing region column is recovered from the one label that
    mentions a region, if there is exactly one. */
module Columns {
  import Seqs
  import Text

  /** A column label as pandas holds it: a string, or some other value
      (a number, a tuple, ...) that the cleaning loop leaves alone.
      `shown` is that value's `str()` form, which is all the region rule reads. */
  datatype Label = Str(text: string) | Other(shown: string)

  /** The canonical region column and the marker substring that identifies a
      candidate for it. */
  const RegionLabel: string := "销售地区"
  const RegionMarker: string := "地区"

  /** The text form of a label. */
  function Display(l: Label): string
  {
    match l
    case Str(s) => s
    case Other(s) => s
  }

  /** A label the cleaning loop would leave as it is. */
  predicate IsClean(l: Label)
  {
    l.Other? || (Text.QuoteFree(l.text) && Text.IsStripped(l.text))
  }

  /** A string label with both quote characters deleted and the surrounding
      whitespace then stripped. */
  function CleanText(s: string): (r: string)
    ensures Text.QuoteFree(r) && Text.IsStripped(r)
    // what is left of the quote-free text once whitespace is cut from both ends
    ensures var q := Text.RemoveQuotes(s);
            exists i :: 0 <= i <= |q| - |r| && r == q[i..i + |r|]
                        && Text.SpaceBetween(q, 0, i) && Text.SpaceBetween(q, i + |r|, |q|)
    ensures Text.QuoteFree(s) && Text.IsStripped(s) ==> r == s
  {
    var q := Text.RemoveQuotes(s);
    Text.StripQuoteFree(q);
    Text.Strip(q)
  }

  /** One pass of the cleaning loop: a string label cleaned, any other label
      passed through. */
  function CleanLabel(l: Label): (r: Label)
    ensures IsClean(r)
    ensures l.Str? <==> r.Str?
    ensures l.Str? ==> r.text == CleanText(l.text)
    ensures l.Other? ==> r == l
    ensures IsClean(l) ==> r == l
  {
    match l
    case Other(_) => l
    case Str(s) => Str(CleanText(s))
  }

  /** The cleaned header: the labels cleaned one by one, same count,
      same order. */
  function CleanLabels(labels: seq<Label>): (r: seq<Label>)
    ensures |r| == |labels|
    ensures forall k :: 0 <= k < |r| ==> IsClean(r[k])
    ensures forall k :: 0 <= k < |r| ==> r[k] == CleanLabel(labels[k])
  {
    seq(|labels|, k requires 0 <= k < |labels| => CleanLabel(labels[k]))
  }

  /** Cleaning an already cleaned header changes nothing. */
  lemma CleanLabelsIdempotent(labels: seq<Label>)
    ensures CleanLabels(CleanLabels(labels)) == CleanLabels(labels)
  {
    var once := CleanLabels(labels);
    var twice := CleanLabels(once);
    forall k | 0 <= k < |once|
      ensures twice[k] == once[k]
    {
      assert IsClean(once[k]);
    }
  }

  /** The label's text mentions the region marker. */
  predicate IsCandidate(l: Label)
  {
    Text.Contains(Display(l), RegionMarker)
  }

  /** The labels that mention the region marker, in header order. */
  function Candidates(labels: seq<Label>): (r: seq<Label>)
    ensures forall l :: l in r <==> l in labels && IsCandidate(l)
    ensures forall l :: multiset(r)[l] == if IsCandidate(l) then multiset(labels)[l] else 0
    ensures |r| == CandidateCount(labels)
  {
    Seqs.FilterContents(labels, IsCandidate);
    FilterCount(labels);
    Seqs.Filter(labels, IsCandidate)
  }

  lemma {:induction false} FilterCount(labels: seq<Label>)
    ensures |Seqs.Filter(labels, IsCandidate)| == CandidateCount(labels)
    decreases |labels|
  {
    if |labels| > 0 {
      Seqs.FilterCons(labels, IsCandidate);
      FilterCount(labels[1..]);
    }
  }

  /** Candidates are listed in header order: those of a first part of the
      header come before those of the rest. */
  lemma CandidatesAppend(a: seq<Label>, b: seq<Label>)
    ensures Candidates(a + b) == Candidates(a) + Candidates(b)
  {
    Seqs.FilterAppend(a, b, IsCandidate);
  }

  /** How many positions of the header hold a candidate label. */
  function CandidateCount(labels: seq<Label>): nat
    decreases |labels|
  {
    if |labels| == 0 then 0
    else (if IsCandidate(labels[0]) then 1 else 0) + CandidateCount(labels[1..])
  }

  /** With exactly one candidate position, any two positions holding a
      candidate are the same position: no second position holds a candidate. */
  lemma {:induction false} SingleCandidatePosition(labels: seq<Label>, i: int, j: int)
    requires CandidateCount(labels) == 1
    requires 0 <= i < |labels| && 0 <= j < |labels|
    requires IsCandidate(labels[i]) && IsCandidate(labels[j])
    ensures i == j
    decreases |labels|
  {
    if i != j {
      if i == 0 || j == 0 {
        var other := if i == 0 then j else i;
        CountPositive(labels[1..], other - 1);
      } else if IsCandidate(labels[0]) {
        CountPositive(labels[1..], i - 1);
      } else {
        SingleCandidatePosition(labels[1..], i - 1, j - 1);
      }
    }
  }

  lemma {:induction false} CountPositive(labels: seq<Label>, i: int)
    requires 0 <= i < |labels| && IsCandidate(labels[i])
    ensures CandidateCount(labels) >= 1
    decreases |labels|
  {
    if i > 0 {
      CountPositive(labels[1..], i - 1);
    }
  }

  /** Renaming by label: every column labelled `from` is relabelled `to`. */
  function Rename(labels: seq<Label>, from: Label, to: Label): (r: seq<Label>)
    ensures |r| == |labels|
    ensures forall k :: 0 <= k < |r| ==> r[k] == if labels[k] == from then to else labels[k]
  {
    seq(|labels|, k requires 0 <= k < |labels| => if labels[k] == from then to else labels[k])
  }

  /** The region repair of app.py:36-40. */
  function RepairRegion(labels: seq<Label>): (r: seq<Label>)
    ensures |r| == |labels|
    // the canonical column is already there: nothing changes
    ensures Str(RegionLabel) in labels ==> r == labels
    // zero, or two or more, candidates: nothing changes
    ensures CandidateCount(labels) != 1 ==> r == labels
    // exactly one candidate: that position, and only it, is renamed
    ensures Str(RegionLabel) !in labels && CandidateCount(labels) == 1 ==>
              forall k :: 0 <= k < |r| ==>
                r[k] == if IsCandidate(labels[k]) then Str(RegionLabel) else labels[k]
  {
    if Str(RegionLabel) in labels then labels
    else
      var candidates := Candidates(labels);
      if |candidates| == 1 then
        var from := candidates[0];
        assert from in candidates;
        assert forall k :: 0 <= k < |labels| && IsCandidate(labels[k]) ==> labels[k] == from by {
          forall k | 0 <= k < |labels| && IsCandidate(labels[k])
            ensures labels[k] == from
          {
            assert labels[k] in candidates;
          }
        }
        Rename(labels, from, Str(RegionLabel))
      else labels
  }

  /** After repair the canonical region column can be looked up exactly when
      it was already present or exactly one label was a candidate; otherwise a
      later lookup of the region column fails. */
  lemma RegionResolvable(labels: seq<Label>)
    ensures Str(RegionLabel) in RepairRegion(labels)
            <==> Str(RegionLabel) in labels || CandidateCount(labels) == 1
  {
    var r := RepairRegion(labels);
    if Str(RegionLabel) !in labels && CandidateCount(labels) == 1 {
      var c := Candidates(labels);
      assert c[0] in c;
      var k :| 0 <= k < |labels| && labels[k] == c[0];
      assert r[k] == Str(RegionLabel);
    }
  }

  /** The whole header normalisation of `load_sales_data`: clean, then repair. */
  function Normalize(labels: seq<Label>): (r: seq<Label>)
    ensures |r| == |labels|
    ensures forall k :: 0 <= k < |r| ==> IsClean(r[k])
    // each position holds its cleaned label, or the canonical region label
    ensures forall k :: 0 <= k < |r| ==> r[k] == CleanLabel(labels[k]) || r[k] == Str(RegionLabel)
    // the region column is there exactly when cleaning produced it or one label names a region
    ensures Str(RegionLabel) in r <==>
              Str(RegionLabel) in CleanLabels(labels) || CandidateCount(CleanLabels(labels)) == 1
    // an existing region column, or no single candidate, leaves the cleaned header as it is
    ensures Str(RegionLabel) in CleanLabels(labels) || CandidateCount(CleanLabels(labels)) != 1 ==>
              r == CleanLabels(labels)
    // otherwise the one candidate position, and only it, is renamed
    ensures Str(RegionLabel) !in CleanLabels(labels) && CandidateCount(CleanLabels(labels)) == 1 ==>
              forall k :: 0 <= k < |r| ==>
                r[k] == if IsCandidate(CleanLabel(labels[k])) then Str(RegionLabel) else CleanLabel(labels[k])
  {
    var cleaned := CleanLabels(labels);
    RepairKeepsClean(cleaned);
    RepairFromClean(labels);
    RepairRegion(cleaned)
  }

  /** The repair of a cleaned header, position by position in terms of the
      original labels. */
  lemma RepairFromClean(labels: seq<Label>)
    ensures var cleaned := CleanLabels(labels);
            var r := RepairRegion(cleaned);
            && (forall k :: 0 <= k < |r| ==> r[k] == CleanLabel(labels[k]) || r[k] == Str(RegionLabel))
            && (Str(RegionLabel) !in cleaned && CandidateCount(cleaned) == 1 ==>
                  forall k :: 0 <= k < |r| ==>
                    r[k] == if IsCandidate(CleanLabel(labels[k])) then Str(RegionLabel) else CleanLabel(labels[k]))
            && (Str(RegionLabel) in r <==> Str(RegionLabel) in cleaned || CandidateCount(cleaned) == 1)
  {
    var cleaned := CleanLabels(labels);
    RepairShape(cleaned);
    RegionResolvable(cleaned);
  }

  /** The repair changes labels only into the canonical region label. */
  lemma RepairShape(labels: seq<Label>)
    ensures forall k :: 0 <= k < |labels| ==>
              RepairRegion(labels)[k] == labels[k] || RepairRegion(labels)[k] == Str(RegionLabel)
  {
  }

  /** The canonical region label is already clean. */
  lemma RegionLabelClean()
    ensures IsClean(Str(RegionLabel))
  {
    assert !Text.IsQuote(RegionLabel[0]) && !Text.IsSpace(RegionLabel[0]);
    assert !Text.IsQuote(RegionLabel[3]) && !Text.IsSpace(RegionLabel[3]);
  }

  /** The repair of a clean header is clean. */
  lemma RepairKeepsClean(labels: seq<Label>)
    requires forall k :: 0 <= k < |labels| ==> IsClean(labels[k])
    ensures forall k :: 0 <= k < |labels| ==> IsClean(RepairRegion(labels)[k])
  {
    var r := RepairRegion(labels);
    RepairShape(labels);
    RegionLabelClean();
    forall k | 0 <= k < |labels|
      ensures IsClean(r[k])
    {
      if r[k] != labels[k] {
        assert r[k] == Str(RegionLabel);
      }
    }
  }

  /** Normalising a normalised header is a no-op. */
  lemma NormalizeIdempotent(labels: seq<Label>)
    ensures Normalize(Normalize(labels)) == Normalize(labels)
  {
    var n := Normalize(labels);
    var cleaned := CleanLabels(n);
    forall k | 0 <= k < |n|
      ensures cleaned[k] == n[k]
    {
      assert IsClean(n[k]);
    }
    assert cleaned == n;
    var c := CleanLabels(labels);
    if Str(RegionLabel) !in c && CandidateCount(c) == 1 {
      RegionResolvable(c);
    }
  }
}
