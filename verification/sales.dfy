/** The dashboard's data pipeline after loading (app.py:57-96, 205-236,
    290-343, 374-385): the sidebar mask over the record store, the overview
    figures, the per-day, per-category and per-city sums, and the product
    search over the detail listing. */
module Sales {
  import Seqs
  import Text
  import Grouping
  import Trend

  datatype Option<T> = None | Some(value: T)

  /** One row of the sales sheet: 日期 (as its date-only projection 日期_仅日期,
      a day number), 产品类别, 商品名称, 销售地区, 销售数量, 单价 and 总金额.
      Money is in cents. The amount is read as given, never recomputed from
      quantity and price. */
  datatype SalesRecord = SalesRecord(
    date: int,
    category: string,
    product: string,
    region: string,
    quantity: int,
    unitPrice: int,
    amount: int)

  /** The sidebar's choices: an inclusive date range and the selected
      categories and regions. */
  datatype Criteria = Criteria(start: int, end: int, categories: set<string>, regions: set<string>)

  /** One row of `mask` (app.py:90-95). */
  predicate Selected(c: Criteria, r: SalesRecord)
  {
    && c.start <= r.date
    && r.date <= c.end
    && r.category in c.categories
    && r.region in c.regions
  }

  /** The view the whole page works on: the selected rows, in store order. */
  function FilterView(rows: seq<SalesRecord>, c: Criteria): (v: seq<SalesRecord>)
    ensures forall r :: multiset(v)[r] == if Selected(c, r) then multiset(rows)[r] else 0
    ensures forall r :: r in v <==> r in rows && Selected(c, r)
    // an inverted range or an empty selection selects nothing; it is not an error
    ensures c.start > c.end || c.categories == {} || c.regions == {} ==> v == []
  {
    var v := Seqs.Filter(rows, r => Selected(c, r));
    Seqs.FilterContents(rows, r => Selected(c, r));
    assert |v| > 0 ==> v[0] in v;
    v
  }

  predicate DateNotAfter(a: SalesRecord, b: SalesRecord)
  {
    a.date <= b.date
  }

  predicate DateNotBefore(a: SalesRecord, b: SalesRecord)
  {
    a.date >= b.date
  }

  /** The store is sorted by date (app.py:58); the view keeps that order. */
  lemma FilterViewAscending(rows: seq<SalesRecord>, c: Criteria)
    requires Seqs.Ordered(rows, DateNotAfter)
    ensures Seqs.Ordered(FilterView(rows, c), DateNotAfter)
  {
    Seqs.FilterOrdered(rows, r => Selected(c, r), DateNotAfter);
  }

  /** The view of a store made of two parts is the two parts' views in the
      same order: no row overtakes another. */
  lemma FilterViewAppend(a: seq<SalesRecord>, b: seq<SalesRecord>, c: Criteria)
    ensures FilterView(a + b, c) == FilterView(a, c) + FilterView(b, c)
  {
    Seqs.FilterAppend(a, b, r => Selected(c, r));
  }

  /** The view of one row is that row exactly when the row is selected. */
  lemma FilterViewSingle(x: SalesRecord, c: Criteria)
    ensures FilterView([x], c) == if Selected(c, x) then [x] else []
  {
    Seqs.FilterCons([x], r => Selected(c, r));
    assert [x][1..] == [];
  }

  /** The keyword test of app.py:384: the product name contains the keyword,
      ignoring case. */
  predicate Matches(keyword: string, r: SalesRecord)
  {
    Text.ContainsIgnoringCase(r.product, keyword)
  }

  /** app.py:382-385 applied to the date-descending detail listing: an empty
      keyword keeps every row, any other keeps the matching rows in order.
      The overview and the charts never see this narrowing. */
  function Search(listing: seq<SalesRecord>, keyword: string): (r: seq<SalesRecord>)
    ensures keyword == "" ==> r == listing
    ensures keyword != "" ==>
              forall x :: multiset(r)[x] == if Matches(keyword, x) then multiset(listing)[x] else 0
    ensures forall x :: x in r <==> x in listing && (keyword == "" || Matches(keyword, x))
  {
    if keyword == "" then listing
    else
      Seqs.FilterContents(listing, x => Matches(keyword, x));
      Seqs.Filter(listing, x => Matches(keyword, x))
  }

  /** The search works piece by piece: rows it keeps stay in listing order,
      including rows of the same date. */
  lemma SearchAppend(a: seq<SalesRecord>, b: seq<SalesRecord>, keyword: string)
    ensures Search(a + b, keyword) == Search(a, keyword) + Search(b, keyword)
  {
    if keyword != "" {
      Seqs.FilterAppend(a, b, x => Matches(keyword, x));
    }
  }

  /** One row is kept exactly when the keyword is empty or matches it. */
  lemma SearchSingle(x: SalesRecord, keyword: string)
    ensures Search([x], keyword) == if keyword == "" || Matches(keyword, x) then [x] else []
  {
    if keyword != "" {
      Seqs.FilterCons([x], x => Matches(keyword, x));
      assert [x][1..] == [];
    }
  }

  /** The search keeps the listing's newest-first order. */
  lemma SearchDescending(listing: seq<SalesRecord>, keyword: string)
    requires Seqs.Ordered(listing, DateNotBefore)
    ensures Seqs.Ordered(Search(listing, keyword), DateNotBefore)
  {
    if keyword != "" {
      Seqs.FilterOrdered(listing, x => Matches(keyword, x), DateNotBefore);
    }
  }

  /** Typing the keyword in another case finds the same rows. */
  lemma SearchIgnoresCase(listing: seq<SalesRecord>, keyword: string)
    ensures Search(listing, Text.Lower(keyword)) == Search(listing, keyword)
  {
    if keyword != "" {
      Text.LowerIdempotent(keyword);
      Seqs.FilterSameTest(listing, x => Matches(Text.Lower(keyword), x), x => Matches(keyword, x));
    }
  }

  /** The detail listing orders the view newest first;
      reversing the date-ascending view is one such order, holding the same
      rows. */
  lemma ReversedViewIsListing(v: seq<SalesRecord>)
    requires Seqs.Ordered(v, DateNotAfter)
    ensures Seqs.Ordered(Seqs.Reverse(v), DateNotBefore)
    ensures multiset(Seqs.Reverse(v)) == multiset(v)
  {
    var r := Seqs.Reverse(v);
    forall i, j | 0 <= i < j < |r|
      ensures DateNotBefore(r[i], r[j])
    {
      assert r[i] == v[|v| - 1 - i] && r[j] == v[|v| - 1 - j];
    }
  }

  /** Sum of the amount column over a view. */
  function SalesTotal(v: seq<SalesRecord>): int
    decreases |v|
  {
    if |v| == 0 then 0 else v[0].amount + SalesTotal(v[1..])
  }

  /** The rows passing `p` and the rows failing it share the total between them. */
  lemma {:induction false} SalesTotalSplit(v: seq<SalesRecord>, p: SalesRecord -> bool)
    ensures SalesTotal(Seqs.Filter(v, p)) + SalesTotal(Seqs.Filter(v, r => !p(r))) == SalesTotal(v)
    decreases |v|
  {
    if |v| > 0 {
      SalesTotalSplit(v[1..], p);
      var yes := Seqs.Filter(v[1..], p);
      var no := Seqs.Filter(v[1..], r => !p(r));
      if p(v[0]) {
        assert Seqs.Filter(v, p) == [v[0]] + yes;
        assert ([v[0]] + yes)[1..] == yes;
        assert Seqs.Filter(v, r => !p(r)) == no;
      } else {
        assert Seqs.Filter(v, p) == yes;
        assert Seqs.Filter(v, r => !p(r)) == [v[0]] + no;
        assert ([v[0]] + no)[1..] == no;
      }
    }
  }

  /** Sum of the amounts of the rows whose `key` is `k`: what one group of a
      group-by stands for. */
  function SalesWhere<K(==)>(v: seq<SalesRecord>, key: SalesRecord -> K, k: K): int
  {
    SalesTotal(Seqs.Filter(v, r => key(r) == k))
  }

  function Products(v: seq<SalesRecord>): set<string>
  {
    set r | r in v :: r.product
  }

  /** `nunique()` of the product column: at least one product per non-empty
      view, and never more products than rows. */
  lemma {:induction false} ProductsBound(v: seq<SalesRecord>)
    ensures |Products(v)| <= |v|
    ensures |v| > 0 ==> |Products(v)| >= 1
    decreases |v|
  {
    if |v| > 0 {
      assert v[0] in v;
      ProductsBound(v[1..]);
      assert Products(v) == {v[0].product} + Products(v[1..]) by {
        forall p | p in Products(v) ensures p in {v[0].product} + Products(v[1..]) {
          var r :| r in v && r.product == p;
          if r != v[0] {
            assert r in v[1..];
          }
        }
        forall p | p in Products(v[1..]) ensures p in Products(v) {
          var r :| r in v[1..] && r.product == p;
          assert r in v;
        }
      }
    }
  }

  /** A view's rows as (key, amount) pairs, the input of a group-by. */
  function Project<K>(v: seq<SalesRecord>, key: SalesRecord -> K): (g: seq<Grouping.Entry<K>>)
    ensures |g| == |v|
    ensures forall k :: 0 <= k < |v| ==> g[k] == Grouping.Entry(key(v[k]), v[k].amount)
    decreases |v|
  {
    if |v| == 0 then [] else [Grouping.Entry(key(v[0]), v[0].amount)] + Project(v[1..], key)
  }

  lemma SalesTotalCons(x: SalesRecord, v: seq<SalesRecord>)
    ensures SalesTotal([x] + v) == x.amount + SalesTotal(v)
  {
    assert ([x] + v)[1..] == v;
  }

  lemma {:induction false} ProjectTotalWhere<K>(v: seq<SalesRecord>, key: SalesRecord -> K,
                                               p: K -> bool, keep: SalesRecord -> bool)
    requires forall r :: keep(r) == p(key(r))
    ensures Grouping.TotalWhere(Project(v, key), p) == SalesTotal(Seqs.Filter(v, keep))
    decreases |v|
  {
    if |v| > 0 {
      var g := Project(v, key);
      assert g[1..] == Project(v[1..], key);
      assert g[0] == Grouping.Entry(key(v[0]), v[0].amount);
      ProjectTotalWhere(v[1..], key, p, keep);
      Seqs.FilterCons(v, keep);
      var rest := Seqs.Filter(v[1..], keep);
      SalesTotalCons(v[0], rest);
      if keep(v[0]) {
        assert Seqs.Filter(v, keep) == [v[0]] + rest;
      } else {
        assert Seqs.Filter(v, keep) == rest;
      }
    }
  }

  lemma {:induction false} ProjectTotal<K>(v: seq<SalesRecord>, key: SalesRecord -> K)
    ensures Grouping.Total(Project(v, key)) == SalesTotal(v)
    decreases |v|
  {
    if |v| > 0 {
      assert Project(v, key)[1..] == Project(v[1..], key);
      ProjectTotal(v[1..], key);
    }
  }

  lemma {:induction false} ProjectSumFor<K>(v: seq<SalesRecord>, key: SalesRecord -> K, k: K)
    ensures Grouping.SumFor(Project(v, key), k) == SalesWhere(v, key, k)
    decreases |v|
  {
    if |v| > 0 {
      var keep := (r: SalesRecord) => key(r) == k;
      var g := Project(v, key);
      assert g[1..] == Project(v[1..], key);
      assert g[0] == Grouping.Entry(key(v[0]), v[0].amount);
      ProjectSumFor(v[1..], key, k);
      Seqs.FilterCons(v, keep);
      var rest := Seqs.Filter(v[1..], keep);
      assert Grouping.SumFor(g[1..], k) == SalesTotal(rest);
      SalesTotalCons(v[0], rest);
      if key(v[0]) == k {
        assert Seqs.Filter(v, keep) == [v[0]] + rest;
      } else {
        assert Seqs.Filter(v, keep) == rest;
      }
      assert SalesWhere(v, key, k) == SalesTotal(Seqs.Filter(v, keep));
    }
  }

  lemma ProjectKeys<K>(v: seq<SalesRecord>, key: SalesRecord -> K)
    ensures Grouping.Keys(Project(v, key)) == set r | r in v :: key(r)
  {
    var g := Project(v, key);
    forall x | x in Grouping.Keys(g) ensures x in set r | r in v :: key(r) {
      var e :| e in g && e.key == x;
      var m :| 0 <= m < |g| && g[m] == e;
      assert v[m] in v;
    }
    forall x | x in (set r | r in v :: key(r)) ensures x in Grouping.Keys(g) {
      var r :| r in v && key(r) == x;
      var m :| 0 <= m < |v| && v[m] == r;
      assert g[m] in g;
    }
  }

  /** The amount column summed per key over a view, for a key whose values pandas
      orders by `less`. */
  function Breakdown<K(==,!new)>(v: seq<SalesRecord>, key: SalesRecord -> K, less: (K, K) -> bool)
    : (s: seq<Grouping.Entry<K>>)
    requires Grouping.StrictTotalOrder(less)
    ensures Grouping.StrictlyAscending(s, less)
    ensures Grouping.Keys(s) == set r | r in v :: key(r)
    ensures |s| == |set r | r in v :: key(r)|
    ensures forall j :: 0 <= j < |s| ==> s[j].amount == SalesWhere(v, key, s[j].key)
    ensures Grouping.Total(s) == SalesTotal(v)
  {
    var items := Project(v, key);
    var s := Grouping.GroupSum(items, less);
    Grouping.GroupSumMeaning(items, less);
    ProjectKeys(v, key);
    ProjectTotal(v, key);
    assert forall j :: 0 <= j < |s| ==> s[j].amount == SalesWhere(v, key, s[j].key) by {
      forall j | 0 <= j < |s|
        ensures s[j].amount == SalesWhere(v, key, s[j].key)
      {
        ProjectSumFor(v, key, s[j].key);
      }
    }
    s
  }

  /** The rows of a breakdown whose key passes `p` total the view rows whose
      key passes `p`. */
  lemma BreakdownTotalWhere<K(!new)>(v: seq<SalesRecord>, key: SalesRecord -> K, less: (K, K) -> bool,
                                     p: K -> bool, keep: SalesRecord -> bool)
    requires Grouping.StrictTotalOrder(less)
    requires forall r :: keep(r) == p(key(r))
    ensures Grouping.TotalWhere(Breakdown(v, key, less), p) == SalesTotal(Seqs.Filter(v, keep))
  {
    Grouping.GroupSumTotalWhere(Project(v, key), less, p);
    ProjectTotalWhere(v, key, p, keep);
  }

  predicate IntLess(a: int, b: int)
  {
    a < b
  }

  lemma IntLessIsOrder()
    ensures Grouping.StrictTotalOrder(IntLess)
  {
  }

  lemma StrLessIsOrder()
    ensures Grouping.StrictTotalOrder(Text.StrLess)
  {
    forall x: string
      ensures !Text.StrLess(x, x)
    {
      Text.StrLessIrreflexive(x);
    }
    forall x: string, y: string, z: string | Text.StrLess(x, y) && Text.StrLess(y, z)
      ensures Text.StrLess(x, z)
    {
      Text.StrLessTransitive(x, y, z);
    }
    forall x: string, y: string | x != y
      ensures Text.StrLess(x, y) || Text.StrLess(y, x)
    {
      Text.StrLessTotal(x, y);
    }
  }

  function DateKey(r: SalesRecord): int
  {
    r.date
  }

  function CategoryKey(r: SalesRecord): string
  {
    r.category
  }

  function RegionKey(r: SalesRecord): string
  {
    r.region
  }

  function Dates(v: seq<SalesRecord>): set<int>
  {
    set r | r in v :: r.date
  }

  function Categories(v: seq<SalesRecord>): set<string>
  {
    set r | r in v :: r.category
  }

  function Regions(v: seq<SalesRecord>): set<string>
  {
    set r | r in v :: r.region
  }

  /** The daily series (app.py:216-221): one entry per day present in the view,
      strictly ascending by date, each day's sum; days without sales are
      absent rather than zero. */
  function DailySales(v: seq<SalesRecord>): (s: seq<Grouping.Entry<int>>)
    ensures forall i, j :: 0 <= i < j < |s| ==> s[i].key < s[j].key
    ensures Grouping.Keys(s) == Dates(v) && |s| == |Dates(v)|
    ensures forall j :: 0 <= j < |s| ==> s[j].amount == SalesWhere(v, DateKey, s[j].key)
    ensures Grouping.Total(s) == SalesTotal(v)
  {
    IntLessIsOrder();
    var s := Breakdown(v, DateKey, IntLess);
    assert (set r | r in v :: DateKey(r)) == Dates(v);
    assert forall i, j :: 0 <= i < j < |s| ==> IntLess(s[i].key, s[j].key);
    s
  }

  /** The category breakdown (app.py:294-298): one entry per category present in
      the view, in code-point order, each category's sum. */
  function CategorySales(v: seq<SalesRecord>): (s: seq<Grouping.Entry<string>>)
    ensures forall i, j :: 0 <= i < j < |s| ==> Text.StrLess(s[i].key, s[j].key)
    ensures Grouping.Keys(s) == Categories(v) && |s| == |Categories(v)|
    ensures forall j :: 0 <= j < |s| ==> s[j].amount == SalesWhere(v, CategoryKey, s[j].key)
    ensures Grouping.Total(s) == SalesTotal(v)
  {
    StrLessIsOrder();
    var s := Breakdown(v, CategoryKey, Text.StrLess);
    assert (set r | r in v :: CategoryKey(r)) == Categories(v);
    s
  }

  datatype Coord = Coord(lat: real, lon: real)

  /** The coordinate table of the sales map (app.py:321-333). */
  const CityCoords: map<string, Coord> := map[
    "北京" := Coord(39.9042, 116.4074),
    "天津" := Coord(39.3434, 117.3616),
    "上海" := Coord(31.2304, 121.4737),
    "广州" := Coord(23.1291, 113.2644),
    "深圳" := Coord(22.5431, 114.0579),
    "杭州" := Coord(30.2741, 120.1551),
    "南京" := Coord(32.0603, 118.7969),
    "成都" := Coord(30.5728, 104.0668),
    "重庆" := Coord(29.5630, 106.5516),
    "武汉" := Coord(30.5928, 114.3055),
    "西安" := Coord(34.3416, 108.9398)
  ]

  /** One bubble of the sales map. */
  datatype CityPoint = CityPoint(region: string, sales: int, coord: Coord)

  /** The tests "this region / group / row has coordinates in `coords`". */
  function HasCoords(coords: map<string, Coord>): string -> bool
  {
    region => region in coords
  }

  function GroupHasCoords(coords: map<string, Coord>): Grouping.Entry<string> -> bool
  {
    (e: Grouping.Entry<string>) => e.key in coords
  }

  function RowHasCoords(coords: map<string, Coord>): SalesRecord -> bool
  {
    (r: SalesRecord) => r.region in coords
  }

  function RowLacksCoords(coords: map<string, Coord>): SalesRecord -> bool
  {
    (r: SalesRecord) => r.region !in coords
  }

  function CityTotal(s: seq<CityPoint>): int
    decreases |s|
  {
    if |s| == 0 then 0 else s[0].sales + CityTotal(s[1..])
  }

  predicate KeyLess(a: Grouping.Entry<string>, b: Grouping.Entry<string>)
  {
    Text.StrLess(a.key, b.key)
  }

  /** Dropping groups without coordinates: the groups whose region is a key
      of `coords`, in their order. */
  function KeepMapped(groups: seq<Grouping.Entry<string>>, coords: map<string, Coord>)
    : (g: seq<Grouping.Entry<string>>)
    requires Grouping.StrictlyAscending(groups, Text.StrLess)
    ensures forall j :: 0 <= j < |g| ==> g[j].key in coords && g[j] in groups
    ensures Grouping.StrictlyAscending(g, Text.StrLess)
    ensures Grouping.Keys(g) == Grouping.Keys(groups) * coords.Keys
    ensures Grouping.Total(g) == Grouping.TotalWhere(groups, HasCoords(coords))
  {
    var keep := GroupHasCoords(coords);
    var g := Seqs.Filter(groups, keep);
    MappedGroups(groups, coords);
    Seqs.FilterOrdered(groups, keep, KeyLess);
    Grouping.FilterTotal(groups, keep, HasCoords(coords));
    g
  }

  /** What the coordinate filter keeps: groups of `groups`, each with
      coordinates, and every group that has them. */
  lemma MappedGroups(groups: seq<Grouping.Entry<string>>, coords: map<string, Coord>)
    ensures var g := Seqs.Filter(groups, GroupHasCoords(coords));
            forall j :: 0 <= j < |g| ==> g[j].key in coords && g[j] in groups
    ensures Grouping.Keys(Seqs.Filter(groups, GroupHasCoords(coords))) == Grouping.Keys(groups) * coords.Keys
  {
    var keep := GroupHasCoords(coords);
    var g := Seqs.Filter(groups, keep);
    Seqs.FilterContents(groups, keep);
    forall j | 0 <= j < |g|
      ensures g[j].key in coords && g[j] in groups
    {
      assert g[j] in g;
    }
    forall x | x in Grouping.Keys(groups) * coords.Keys
      ensures x in Grouping.Keys(g)
    {
      var e :| e in groups && e.key == x;
      assert e in g;
    }
    forall x | x in Grouping.Keys(g)
      ensures x in Grouping.Keys(groups) * coords.Keys
    {
      var e :| e in g && e.key == x;
      assert e in groups && keep(e);
    }
  }

  lemma CoordTestsAgree(coords: map<string, Coord>)
    ensures forall r :: RowHasCoords(coords)(r) == HasCoords(coords)(RegionKey(r))
  {
  }

  /** Groups picked out of a region breakdown keep their sums. */
  lemma SubgroupAmounts(v: seq<SalesRecord>, groups: seq<Grouping.Entry<string>>, g: seq<Grouping.Entry<string>>)
    requires forall j :: 0 <= j < |groups| ==> groups[j].amount == SalesWhere(v, RegionKey, groups[j].key)
    requires forall j :: 0 <= j < |g| ==> g[j] in groups
    ensures forall j :: 0 <= j < |g| ==> g[j].amount == SalesWhere(v, RegionKey, g[j].key)
  {
    forall j | 0 <= j < |g|
      ensures g[j].amount == SalesWhere(v, RegionKey, g[j].key)
    {
      var m :| 0 <= m < |groups| && groups[m] == g[j];
    }
  }

  /** The per-region groups of the view that have coordinates. */
  function MappedRegions(v: seq<SalesRecord>, coords: map<string, Coord>): (g: seq<Grouping.Entry<string>>)
    ensures forall j :: 0 <= j < |g| ==> g[j].key in coords
    ensures Grouping.StrictlyAscending(g, Text.StrLess)
    ensures Grouping.Keys(g) == Regions(v) * coords.Keys
    ensures |g| == |Regions(v) * coords.Keys|
    ensures forall j :: 0 <= j < |g| ==> g[j].amount == SalesWhere(v, RegionKey, g[j].key)
    ensures Grouping.Total(g) == SalesTotal(Seqs.Filter(v, RowHasCoords(coords)))
  {
    StrLessIsOrder();
    var groups := Breakdown(v, RegionKey, Text.StrLess);
    assert Grouping.Keys(groups) == Regions(v) by {
      assert (set r | r in v :: RegionKey(r)) == Regions(v);
    }
    var g := KeepMapped(groups, coords);
    Grouping.AscendingCount(g, Text.StrLess);
    CoordTestsAgree(coords);
    BreakdownTotalWhere(v, RegionKey, Text.StrLess, HasCoords(coords), RowHasCoords(coords));
    SubgroupAmounts(v, groups, g);
    g
  }

  /** Each mapped group with its coordinates attached. */
  function ToPoints(g: seq<Grouping.Entry<string>>, coords: map<string, Coord>): (s: seq<CityPoint>)
    requires forall j :: 0 <= j < |g| ==> g[j].key in coords
    ensures |s| == |g|
    ensures forall j :: 0 <= j < |g| ==> s[j] == CityPoint(g[j].key, g[j].amount, coords[g[j].key])
    ensures CityTotal(s) == Grouping.Total(g)
    decreases |g|
  {
    if |g| == 0 then []
    else [CityPoint(g[0].key, g[0].amount, coords[g[0].key])] + ToPoints(g[1..], coords)
  }

  lemma PointRegions(g: seq<Grouping.Entry<string>>, coords: map<string, Coord>)
    requires forall j :: 0 <= j < |g| ==> g[j].key in coords
    ensures (set p | p in ToPoints(g, coords) :: p.region) == Grouping.Keys(g)
  {
    var s := ToPoints(g, coords);
    forall x | x in Grouping.Keys(g) ensures x in (set p | p in s :: p.region) {
      var e :| e in g && e.key == x;
      var m :| 0 <= m < |g| && g[m] == e;
      assert s[m] in s;
    }
    forall x | x in (set p | p in s :: p.region) ensures x in Grouping.Keys(g) {
      var p :| p in s && p.region == x;
      var m :| 0 <= m < |s| && s[m] == p;
      assert g[m] in g;
    }
  }

  lemma PointsFields(v: seq<SalesRecord>, g: seq<Grouping.Entry<string>>, coords: map<string, Coord>)
    requires forall j :: 0 <= j < |g| ==> g[j].key in coords
    requires Grouping.StrictlyAscending(g, Text.StrLess)
    requires forall j :: 0 <= j < |g| ==> g[j].amount == SalesWhere(v, RegionKey, g[j].key)
    ensures forall j :: 0 <= j < |g| ==>
              ToPoints(g, coords)[j].region in coords
              && ToPoints(g, coords)[j].coord == coords[ToPoints(g, coords)[j].region]
              && ToPoints(g, coords)[j].sales == SalesWhere(v, RegionKey, ToPoints(g, coords)[j].region)
    ensures forall i, j :: 0 <= i < j < |g| ==>
              Text.StrLess(ToPoints(g, coords)[i].region, ToPoints(g, coords)[j].region)
  {
  }

  /** The per-region sums of the map after dropping regions without
      coordinates (app.py:335-343),
      for the coordinate table `coords` (`CityCoords` on the page): the sums
      of the regions that have coordinates, and only those, each with its
      coordinates, in code-point order of region. */
  function CitySales(v: seq<SalesRecord>, coords: map<string, Coord>): (s: seq<CityPoint>)
    ensures forall j :: 0 <= j < |s| ==> s[j].region in coords && s[j].coord == coords[s[j].region]
    ensures (set p | p in s :: p.region) == Regions(v) * coords.Keys
    ensures |s| == |Regions(v) * coords.Keys|
    ensures forall j :: 0 <= j < |s| ==> s[j].sales == SalesWhere(v, RegionKey, s[j].region)
    ensures forall i, j :: 0 <= i < j < |s| ==> Text.StrLess(s[i].region, s[j].region)
    ensures CityTotal(s) == SalesTotal(Seqs.Filter(v, RowHasCoords(coords)))
  {
    var g := MappedRegions(v, coords);
    var s := ToPoints(g, coords);
    PointRegions(g, coords);
    PointsFields(v, g, coords);
    s
  }

  /** Nothing vanishes from the totals: the map's sums plus the sales of the
      regions without coordinates make up the view's total. */
  lemma CityConservation(v: seq<SalesRecord>, coords: map<string, Coord>)
    ensures CityTotal(CitySales(v, coords)) + SalesTotal(Seqs.Filter(v, RowLacksCoords(coords)))
            == SalesTotal(v)
  {
    var p := RowHasCoords(coords);
    SalesTotalSplit(v, p);
    Seqs.FilterSameTest(v, r => !p(r), RowLacksCoords(coords));
  }

  /** The overview cards and the trend headline (app.py:208-236). */
  datatype Summary = Summary(
    totalSales: int,
    totalOrders: nat,
    uniqueProducts: nat,
    trend: Trend.Report)

  /** No summary for an empty view (the page shows a warning instead). */
  function Overview(v: seq<SalesRecord>): (o: Option<Summary>)
    ensures o.None? <==> |v| == 0
    ensures o.Some? ==> o.value.totalOrders == |v|
    ensures o.Some? ==> o.value.uniqueProducts == |Products(v)|
    ensures o.Some? ==> 1 <= o.value.uniqueProducts <= o.value.totalOrders
    ensures o.Some? ==> o.value.totalSales == Grouping.Total(DailySales(v))
    ensures o.Some? ==> o.value.totalSales == SalesTotal(v)
    // the headline shows the trend of the daily series, as a direction and a magnitude
    ensures o.Some? ==> Trend.Signed(o.value.trend) == Trend.TrendPct(DailySales(v))
    ensures o.Some? ==> o.value.trend.percent >= 0.0
    ensures o.Some? ==> o.value.trend == Trend.Analyze(DailySales(v))
    ensures o.Some? && |Dates(v)| <= Trend.Window ==> o.value.trend == Trend.Report(Trend.Up, 0.0)
  {
    if |v| == 0 then None
    else
      ProductsBound(v);
      var daily := DailySales(v);
      Some(Summary(SalesTotal(v), |v|, |Products(v)|, Trend.Analyze(daily)))
  }

  /** Everything the page derives from one choice of sidebar criteria. */
  datatype Page = Page(
    view: seq<SalesRecord>,
    overview: Option<Summary>,
    daily: seq<Grouping.Entry<int>>,
    categories: seq<Grouping.Entry<string>>,
    cities: seq<CityPoint>)

  /** The page drawn for the view `v`, with bubbles for the regions of `coords`. */
  function PageOf(v: seq<SalesRecord>, coords: map<string, Coord>): (p: Page)
    ensures p.view == v
    // the overview summarises the view
    ensures p.overview.Some? <==> v != []
    ensures p.overview.Some? ==>
              && p.overview.value.totalSales == SalesTotal(v)
              && p.overview.value.totalOrders == |v|
              && Trend.Signed(p.overview.value.trend) == Trend.TrendPct(p.daily)
    // the line chart: each day of the view with its sum, in date order
    ensures Grouping.Keys(p.daily) == Dates(v)
    ensures forall j :: 0 <= j < |p.daily| ==> p.daily[j].amount == SalesWhere(v, DateKey, p.daily[j].key)
    ensures forall i, j :: 0 <= i < j < |p.daily| ==> p.daily[i].key < p.daily[j].key
    // the pie chart: each category of the view with its sum
    ensures Grouping.Keys(p.categories) == Categories(v)
    ensures forall j :: 0 <= j < |p.categories| ==>
              p.categories[j].amount == SalesWhere(v, CategoryKey, p.categories[j].key)
    // the line chart and the pie chart share the view's total
    ensures Grouping.Total(p.daily) == SalesTotal(v)
    ensures Grouping.Total(p.categories) == SalesTotal(v)
    // the map: each mapped region's sum, and with the unmapped sales the view's total
    ensures forall j :: 0 <= j < |p.cities| ==> p.cities[j].region in coords
    ensures forall j :: 0 <= j < |p.cities| ==> p.cities[j].sales == SalesWhere(v, RegionKey, p.cities[j].region)
    ensures CityTotal(p.cities) + SalesTotal(Seqs.Filter(v, RowLacksCoords(coords))) == SalesTotal(v)
    // an empty view is a normal outcome: no overview, empty charts
    ensures v == [] ==> p.overview.None? && p.daily == [] && p.categories == [] && p.cities == []
    // each part is the one its own operation computes for the view
    ensures p.overview == Overview(v)
    ensures p.daily == DailySales(v)
    ensures p.categories == CategorySales(v)
    ensures p.cities == CitySales(v, coords)
  {
    PageParts(v, coords);
    if |v| == 0 then
      Page(v, None, [], [], [])
    else
      Page(v, Overview(v), DailySales(v), CategorySales(v), CitySales(v, coords))
  }

  /** The facts `PageOf` gathers from its parts, for one view. */
  lemma PageParts(v: seq<SalesRecord>, coords: map<string, Coord>)
    ensures var o, daily, categories, cities := Overview(v), DailySales(v), CategorySales(v), CitySales(v, coords);
            && (o.Some? <==> v != [])
            && (o.Some? ==>
                  && o.value.totalSales == SalesTotal(v)
                  && o.value.totalOrders == |v|
                  && Trend.Signed(o.value.trend) == Trend.TrendPct(daily))
            && (forall j :: 0 <= j < |cities| ==> cities[j].region in coords)
            && CityTotal(cities) + SalesTotal(Seqs.Filter(v, RowLacksCoords(coords))) == SalesTotal(v)
            && (v == [] ==> o.None? && daily == [] && categories == [] && cities == [])
  {
    EmptyCharts(coords);
    CityConservation(v, coords);
  }

  /** An empty view has no days, no categories and no map points. */
  lemma EmptyCharts(coords: map<string, Coord>)
    ensures DailySales([]) == [] && CategorySales([]) == [] && CitySales([], coords) == []
  {
    var none: seq<SalesRecord> := [];
    assert Dates(none) == {} && Categories(none) == {} && Regions(none) == {};
  }

  /** One refresh of the page over the record store `rows`. */
  function Dashboard(rows: seq<SalesRecord>, c: Criteria): (p: Page)
    // the view holds the store's selected rows, each as often as in the store
    ensures forall r :: multiset(p.view)[r] == if Selected(c, r) then multiset(rows)[r] else 0
    // an empty selection or an inverted range is a normal outcome: an empty view
    ensures c.categories == {} || c.regions == {} || c.start > c.end ==> p.view == []
    // the view is the store's selected rows in store order
    ensures p.view == FilterView(rows, c)
    // the rest of the page is the one drawn for the view and the city table
    ensures p == PageOf(p.view, CityCoords)
  {
    PageOf(FilterView(rows, c), CityCoords)
  }

  /** A one-row view sums to that row's amount under its own key. */
  lemma SingleRowWhere<K>(row: SalesRecord, key: SalesRecord -> K)
    ensures SalesWhere([row], key, key(row)) == row.amount
  {
    var k := key(row);
    var keep := (r: SalesRecord) => key(r) == k;
    Seqs.FilterCons([row], keep);
    assert [row][1..] == [];
    assert Seqs.Filter([row], keep) == [row];
    SalesTotalCons(row, []);
    assert SalesWhere([row], key, k) == SalesTotal(Seqs.Filter([row], keep));
  }

  /** A view of one row has one day, holding that row's amount. */
  lemma SingleRowDaily(r: SalesRecord)
    ensures DailySales([r]) == [Grouping.Entry(r.date, r.amount)]
  {
    var d := DailySales([r]);
    assert Dates([r]) == {r.date};
    assert d[0].key in Grouping.Keys(d);
    SingleRowWhere(r, DateKey);
  }

  /** A view of one row has one category, holding that row's amount. */
  lemma SingleRowCategories(r: SalesRecord)
    ensures CategorySales([r]) == [Grouping.Entry(r.category, r.amount)]
  {
    var k := CategorySales([r]);
    assert Categories([r]) == {r.category};
    assert k[0].key in Grouping.Keys(k);
    SingleRowWhere(r, CategoryKey);
  }

  /** A view of one row: one order of one product, and a one-day history
      reports a flat, rising trend. */
  lemma SingleRowOverview(r: SalesRecord)
    ensures Overview([r]) == Some(Summary(r.amount, 1, 1, Trend.Report(Trend.Up, 0.0)))
  {
    assert Products([r]) == {r.product};
    assert Dates([r]) == {r.date};
    SingleRowDaily(r);
  }

  /** A two-row store (2024-01-01 is day 19723): selecting only fruit keeps
      the apple sale alone. */
  lemma TwoRecordScenario()
    ensures
      var apple := SalesRecord(19723, "水果", "苹果", "北京", 2, 500, 1000);
      var potato := SalesRecord(19724, "蔬菜", "土豆", "上海", 3, 200, 600);
      FilterView([apple, potato], Criteria(19723, 19724, {"水果"}, {"北京", "上海"})) == [apple]
  {
    var apple := SalesRecord(19723, "水果", "苹果", "北京", 2, 500, 1000);
    var potato := SalesRecord(19724, "蔬菜", "土豆", "上海", 3, 200, 600);
    var c := Criteria(19723, 19724, {"水果"}, {"北京", "上海"});
    assert Selected(c, apple);
    assert !Selected(c, potato) by {
      assert potato.category !in c.categories;
    }
    SelectFirst(apple, potato, c);
  }

  /** A selected row followed by an unselected one: the view is the first
      row alone. */
  lemma SelectFirst(a: SalesRecord, b: SalesRecord, c: Criteria)
    requires Selected(c, a) && !Selected(c, b)
    ensures FilterView([a, b], c) == [a]
  {
    assert [a, b] == [a] + [b];
    FilterViewAppend([a], [b], c);
    FilterViewSingle(a, c);
    FilterViewSingle(b, c);
  }

  /** The dashboard of that store: one sale of 10.00 on one day in one
      category, with a flat trend. */
  lemma TwoRecordDashboard()
    ensures
      var apple := SalesRecord(19723, "水果", "苹果", "北京", 2, 500, 1000);
      var potato := SalesRecord(19724, "蔬菜", "土豆", "上海", 3, 200, 600);
      var p := Dashboard([apple, potato], Criteria(19723, 19724, {"水果"}, {"北京", "上海"}));
      && p.view == [apple]
      && p.overview == Some(Summary(1000, 1, 1, Trend.Report(Trend.Up, 0.0)))
      && p.daily == [Grouping.Entry(19723, 1000)]
      && p.categories == [Grouping.Entry("水果", 1000)]
  {
    var apple := SalesRecord(19723, "水果", "苹果", "北京", 2, 500, 1000);
    TwoRecordScenario();
    SingleRowOverview(apple);
    SingleRowDaily(apple);
    SingleRowCategories(apple);
  }
}
