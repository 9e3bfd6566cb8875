/**
 * WidgetService: the in-memory widget store. `storage` is a list kept (re)sorted by
 * descending z; create inserts and shifts, update replaces in place, delete removes,
 * and the reads page and filter the sorted list.
 */
module WidgetStore {
  import opened Wrappers
  import opened Int32
  import opened WidgetModel
  import opened StackOrder

  /** The largest page getWidgets serves. */
  const MaxLimit: int := 500

  /** The exceptions the store's operations throw. */
  datatype ServiceError =
    | WidgetNotFound   // WidgetNotFoundException
    | NullAttribute    // NullAtrributeException
    | TooManyWidgets   // TooManyWidgetsException
    | NullPointer      // a null Integer unboxed by matchesFilter

  // ---------------------------------------------------------------------------
  // What every stored widget satisfies
  // ---------------------------------------------------------------------------

  /** Ids are pairwise distinct. */
  ghost predicate UniqueIds(s: seq<Widget>)
  {
    forall i, j :: 0 <= i < j < |s| ==> s[i].id != s[j].id
  }

  /** Every stored widget has the id, timestamp and z that create stamps, and ids are distinct. */
  ghost predicate WellFormed(s: seq<Widget>)
  {
    && (forall i :: 0 <= i < |s| ==> s[i].id.Some? && s[i].z.Some? && s[i].lastModified.Some?)
    && UniqueIds(s)
  }

  // ---------------------------------------------------------------------------
  // Lookups
  // ---------------------------------------------------------------------------

  /** `stream().filter(p).findFirst()`, as the index of the element found. */
  function FirstMatch(s: seq<Widget>, p: Widget -> bool): (r: Option<nat>)
    ensures r.Some? ==> r.value < |s| && p(s[r.value]) && forall j :: 0 <= j < r.value ==> !p(s[j])
    ensures r.None? ==> forall j :: 0 <= j < |s| ==> !p(s[j])
  {
    if |s| == 0 then None
    else if p(s[0]) then Some(0)
    else match FirstMatch(s[1..], p)
      case None => None
      case Some(i) => Some(i + 1)
  }

  /** The position of the first widget with this id. */
  function IndexOfId(s: seq<Widget>, id: string): (r: Option<nat>)
  {
    FirstMatch(s, (w: Widget) => w.id == Some(id))
  }

  /** find: the first stored widget with this id. */
  function Find(s: seq<Widget>, id: string): (r: Option<Widget>)
    ensures r.Some? ==> exists k :: 0 <= k < |s| && r.value == s[k] && s[k].id == Some(id) &&
                          forall j :: 0 <= j < k ==> s[j].id != Some(id)
    ensures r.None? <==> forall i :: 0 <= i < |s| ==> s[i].id != Some(id)
  {
    match IndexOfId(s, id)
    case Some(k) => Some(s[k])
    case None => None
  }

  /** With distinct ids, the widget at position k is the one find returns for its id. */
  lemma FindUnique(s: seq<Widget>, k: nat)
    requires UniqueIds(s) && k < |s| && s[k].id.Some?
    ensures IndexOfId(s, s[k].id.value) == Some(k)
    ensures Find(s, s[k].id.value) == Some(s[k])
  {
    var r := IndexOfId(s, s[k].id.value);
    assert r.Some?;
  }

  // ---------------------------------------------------------------------------
  // create: getMaxZindex and fillStorage
  // ---------------------------------------------------------------------------

  /**
   * getMaxZindex: Integer.MAX_VALUE on an empty store; otherwise one more (wrapping)
   * than the z of the widget greatest under reverse order, which is the LEAST z.
   */
  function MaxZIndex(s: seq<Widget>): (r: int32)
    requires HasZ(s)
    ensures |s| == 0 ==> r == MaxInt32
    ensures |s| > 0 ==> exists i :: 0 <= i < |s| && r == Inc(s[i].z.value) &&
                          forall j :: 0 <= j < |s| ==> s[i].z.value <= s[j].z.value
  {
    if |s| == 0 then MaxInt32 else Inc(LeastZ(s))
  }

  /** What create does to its argument before storing it: fresh id, timestamp and, when absent, z. */
  function Stamped(w: Widget, s: seq<Widget>, freshId: string, now: Timestamp): (r: Widget)
    requires HasZ(s)
    ensures r.id == Some(freshId) && r.lastModified == Some(now)
    ensures w.z.Some? ==> r.z == w.z
    ensures w.z.None? ==> r.z == Some(MaxZIndex(s))
    ensures r.x == w.x && r.y == w.y && r.width == w.width && r.height == w.height
  {
    w.(id := Some(freshId), lastModified := Some(now),
       z := if w.z.None? then Some(MaxZIndex(s)) else w.z)
  }

  /**
   * Where fillStorage inserts a widget with this z into the sorted list: at the first
   * element with the same z, otherwise in front of the last element.
   */
  function InsertIndex(s: seq<Widget>, z: int32): (k: nat)
    requires |s| > 0
    ensures k < |s|
    ensures (exists j :: 0 <= j < |s| && s[j].z == Some(z)) ==>
              s[k].z == Some(z) && forall j :: 0 <= j < k ==> s[j].z != Some(z)
    ensures (forall j :: 0 <= j < |s| ==> s[j].z != Some(z)) ==> k == |s| - 1
  {
    match FirstMatch(s, (w: Widget) => w.z == Some(z))
    case Some(i) => i
    case None => |s| - 1
  }

  /** One step of fillStorage's loop: a z at or above the new z moves up by one. */
  function BumpZ(w: Widget, z: int32): (r: Widget)
    requires w.z.Some?
    ensures r.z.Some? && r == w.(z := r.z)
    ensures w.z.value >= z ==> r.z.value == Inc(w.z.value)
    ensures w.z.value < z ==> r == w
  {
    if w.z.value >= z then w.(z := Some(Inc(w.z.value))) else w
  }

  /**
   * The store after fillStorage puts `w` into the sorted list `sorted`: `w` at the
   * insertion index with its own z, everything before it untouched, and everything
   * after it moved one place on, its z raised by exactly one (wrapping) when it was
   * at least w's z. Nothing is removed.
   */
  function Placed(sorted: seq<Widget>, w: Widget): (r: seq<Widget>)
    requires HasZ(sorted) && w.z.Some?
    ensures |r| == |sorted| + 1
    ensures |sorted| == 0 ==> r == [w]
    ensures |sorted| > 0 ==>
      var k := InsertIndex(sorted, w.z.value);
      && r[k] == w
      && (forall j :: 0 <= j < k ==> r[j] == sorted[j])
      && (forall j :: k < j < |r| ==> r[j].(z := sorted[j - 1].z) == sorted[j - 1])
      && (forall j :: k < j < |r| ==>
            r[j].z == Some(if sorted[j - 1].z.value >= w.z.value then Inc(sorted[j - 1].z.value)
                           else sorted[j - 1].z.value))
  {
    if |sorted| == 0 then [w]
    else
      var k := InsertIndex(sorted, w.z.value);
      var tail := seq(|sorted| - k, i requires 0 <= i < |sorted| - k => BumpZ(sorted[k + i], w.z.value));
      var r := sorted[..k] + [w] + tail;
      assert forall j :: k < j < |r| ==> r[j] == tail[j - k - 1] == BumpZ(sorted[j - 1], w.z.value);
      r
  }

  /** fillStorage's loop as a whole: every widget from position `from` on goes through BumpZ. */
  function BumpAfter(s: seq<Widget>, from: nat, z: int32): (r: seq<Widget>)
    requires from <= |s| && HasZ(s)
    ensures |r| == |s|
    ensures forall j :: 0 <= j < from ==> r[j] == s[j]
    ensures forall j :: from <= j < |r| ==> r[j] == BumpZ(s[j], z)
  {
    s[..from] + seq(|s| - from, i requires 0 <= i < |s| - from => BumpZ(s[from + i], z))
  }

  /** Sorting keeps the store's invariant. */
  lemma SortDescWellFormed(s: seq<Widget>)
    requires WellFormed(s)
    ensures WellFormed(SortDesc(s))
  {
    var r := SortDesc(s);
    forall i | 0 <= i < |r|
      ensures r[i].id.Some? && r[i].z.Some? && r[i].lastModified.Some?
    {
      assert r[i] in multiset(s);
    }
    forall i, j | 0 <= i < j < |r| ensures r[i].id != r[j].id {
      PermutationKeepsIdsApart(s, r, i, j);
    }
  }

  /** Two positions of a permutation of a list with distinct ids hold different ids. */
  lemma PermutationKeepsIdsApart(s: seq<Widget>, r: seq<Widget>, i: nat, j: nat)
    requires UniqueIds(s) && multiset(r) == multiset(s)
    requires i < j < |r|
    ensures r[i].id != r[j].id
  {
    assert r[i] in multiset(s) && r[j] in multiset(s);
    var a :| 0 <= a < |s| && s[a] == r[i];
    var b :| 0 <= b < |s| && s[b] == r[j];
    if a == b {
      TwiceCounted(r, i, j);
      DistinctCount(s, a);
      assert false;
    }
  }

  /** A widget found at two positions is counted at least twice. */
  lemma TwiceCounted(r: seq<Widget>, i: nat, j: nat)
    requires i < j < |r| && r[i] == r[j]
    ensures multiset(r)[r[i]] >= 2
  {
    assert r == r[..j] + r[j..];
    assert r[..j][i] == r[i];
    assert r[j..][0] == r[i];
    assert multiset(r[..j])[r[i]] >= 1;
    assert multiset(r[j..])[r[i]] >= 1;
  }

  /** A widget whose id is unique in `s` occurs in it once. */
  lemma DistinctCount(s: seq<Widget>, a: nat)
    requires UniqueIds(s) && a < |s|
    ensures multiset(s)[s[a]] == 1
  {
    var x := s[a];
    assert s == s[..a] + [x] + s[a + 1..];
    forall b | 0 <= b < a ensures s[..a][b] != x {
      assert s[b].id != s[a].id;
    }
    var tail := s[a + 1..];
    forall b | 0 <= b < |tail| ensures tail[b] != x {
      assert tail[b] == s[a + 1 + b];
    }
    assert x !in s[..a];
    assert x !in s[a + 1..];
  }

  /** fillStorage keeps the store's invariant when the new widget is stamped and its id is fresh. */
  lemma PlacedWellFormed(sorted: seq<Widget>, w: Widget)
    requires WellFormed(sorted)
    requires w.id.Some? && w.z.Some? && w.lastModified.Some?
    requires forall i :: 0 <= i < |sorted| ==> sorted[i].id != w.id
    ensures WellFormed(Placed(sorted, w))
  {
    var r := Placed(sorted, w);
    if |sorted| > 0 {
      var k := InsertIndex(sorted, w.z.value);
      // position of r[j] in `sorted`, for j != k
      forall i, j | 0 <= i < j < |r| ensures r[i].id != r[j].id {
        var si := if i < k then i else i - 1;
        var sj := if j < k then j else j - 1;
        if i != k && j != k {
          assert r[i].id == sorted[si].id && r[j].id == sorted[sj].id;
        } else if i == k {
          assert r[j].id == sorted[sj].id;
        } else {
          assert r[i].id == sorted[si].id;
        }
      }
      forall i | 0 <= i < |r| ensures r[i].id.Some? && r[i].z.Some? && r[i].lastModified.Some? {
        if i < k {
          assert r[i] == sorted[i];
        } else if i > k {
          assert r[i].(z := sorted[i - 1].z) == sorted[i - 1];
        }
      }
    }
  }

  /** Placed is the insertion followed by fillStorage's loop over everything behind it. */
  lemma PlacedIsInsertThenBump(sorted: seq<Widget>, w: Widget)
    requires |sorted| > 0 && HasZ(sorted) && w.z.Some?
    ensures var k := InsertIndex(sorted, w.z.value);
            var inserted := sorted[..k] + [w] + sorted[k..];
            HasZ(inserted) && Placed(sorted, w) == BumpAfter(inserted, k + 1, w.z.value)
  {
    var k := InsertIndex(sorted, w.z.value);
    var inserted := sorted[..k] + [w] + sorted[k..];
    var r := Placed(sorted, w);
    var b := BumpAfter(inserted, k + 1, w.z.value);
    forall j | 0 <= j < |r| ensures r[j] == b[j] {
      if j > k {
        assert inserted[j] == sorted[j - 1];
        assert r[j].(z := sorted[j - 1].z) == sorted[j - 1];
      }
    }
  }

  /** Sorting and then placing a stamped widget with a fresh id keeps the invariant. */
  lemma FillKeepsWellFormed(s: seq<Widget>, w: Widget)
    requires WellFormed(s)
    requires w.id.Some? && w.z.Some? && w.lastModified.Some?
    requires forall i :: 0 <= i < |s| ==> s[i].id != w.id
    ensures WellFormed(Placed(SortDesc(s), w))
  {
    var sorted := SortDesc(s);
    SortDescWellFormed(s);
    forall i | 0 <= i < |sorted| ensures sorted[i].id != w.id {
      assert sorted[i] in multiset(s);
    }
    PlacedWellFormed(sorted, w);
  }

  /** Round trip: after create, find returns exactly the widget create returned. */
  lemma CreateThenFind(s: seq<Widget>, w: Widget, freshId: string, now: Timestamp)
    requires WellFormed(s) && Find(s, freshId).None?
    ensures var stamped := Stamped(w, s, freshId, now);
            Find(Placed(SortDesc(s), stamped), freshId) == Some(stamped)
  {
    var stamped := Stamped(w, s, freshId, now);
    var sorted := SortDesc(s);
    FillKeepsWellFormed(s, stamped);
    var r := Placed(sorted, stamped);
    var k := if |sorted| == 0 then 0 else InsertIndex(sorted, stamped.z.value);
    assert r[k] == stamped;
    FindUnique(r, k);
  }

  /** Creating without z into an empty store yields Integer.MAX_VALUE and a one-widget store. */
  lemma CreateIntoEmptyStore(w: Widget, freshId: string, now: Timestamp)
    requires w.z.None?
    ensures var stamped := Stamped(w, [], freshId, now);
            stamped.z == Some(MaxInt32) && Placed(SortDesc([]), stamped) == [stamped]
  {
  }

  /** A widget with z 5, then another with z 5: the first moves up to 6, the new one keeps 5. */
  lemma CreateShiftsEqualZ(a: Widget, b: Widget)
    requires a.z == Some(5) && b.z == Some(5)
    ensures Placed(SortDesc([a]), b) == [b, a.(z := Some(6))]
  {
    assert SortDesc([a]) == InsertDesc(a, SortDesc([a][1..]));
    assert InsertIndex([a], 5) == 0;
  }

  /**
   * create does not keep z unique: into z values [2, 1] a new z 1 goes between them,
   * and the old 1 is bumped onto 2. Only the widgets after the insertion index move,
   * so the 2 in front of it stays where it is.
   */
  lemma CreateMayDuplicateZ(a: Widget, b: Widget, c: Widget)
    requires a.z == Some(2) && b.z == Some(1) && c.z == Some(1)
    ensures Placed(SortDesc([a, b]), c) == [a, c, b.(z := Some(2))]
  {
    SortedPair(a, b);
    assert InsertIndex([a, b], 1) == 1 by {
      assert [a, b][1].z == Some(1);
    }
    assert [a, b][..1] == [a];
  }

  /**
   * Two creates reach compareTo's overflow: a widget without z in an empty store gets
   * Integer.MAX_VALUE, and a second create with z 1 bumps it onto Integer.MIN_VALUE.
   * The store is then [new (z 1), old (z MIN_VALUE)] and stays so when re-sorted by
   * z, yet the wrapping compareTo ranks the MIN_VALUE widget above the z-1 widget, so
   * Java's reverse-order sort would put it first.
   */
  lemma CreateReachesCompareOverflow(a: Widget, b: Widget, idA: string, idB: string, t1: Timestamp, t2: Timestamp)
    requires a.z.None? && b.z == Some(1)
    ensures var a1 := Stamped(a, [], idA, t1);
            var s1 := Placed(SortDesc([]), a1);
            var b1 := Stamped(b, s1, idB, t2);
            var s2 := Placed(SortDesc(s1), b1);
            && a1.z == Some(MaxInt32)
            && s2 == [b1, a1.(z := Some(MinInt32))]
            && SortDesc(s2) == s2
            && CompareTo(s2[1], s2[0]) > 0
  {
    var a1 := Stamped(a, [], idA, t1);
    assert a1.z == Some(MaxInt32) by {
      assert MaxZIndex([]) == MaxInt32;
    }
    var s1 := Placed(SortDesc([]), a1);
    assert s1 == [a1] by {
      assert SortDesc([]) == [];
    }
    var b1 := Stamped(b, s1, idB, t2);
    assert b1.z == Some(1);
    OverflowAfterBump(a1, b1);
  }

  /** The store part of the scenario above, on the two stamped widgets. */
  lemma OverflowAfterBump(top: Widget, w: Widget)
    requires top.z == Some(MaxInt32) && w.z == Some(1)
    ensures var s2 := Placed(SortDesc([top]), w);
            && s2 == [w, top.(z := Some(MinInt32))]
            && SortDesc(s2) == s2
            && CompareTo(s2[1], s2[0]) > 0
  {
    var m := top.(z := Some(MinInt32));
    SortedSingleton(top);
    PlacedBelowMax(top, w);
    SortedPair(w, m);
    assert CompareTo(m, w) == MaxInt32 by {
      assert CompareTo(m, w) == Wrap(MinInt32 - 1);
    }
  }

  /** A new z 1 goes in front of a lone Integer.MAX_VALUE, which wraps onto MIN_VALUE. */
  lemma PlacedBelowMax(top: Widget, w: Widget)
    requires top.z == Some(MaxInt32) && w.z == Some(1)
    ensures Placed([top], w) == [w, top.(z := Some(MinInt32))]
  {
    assert InsertIndex([top], 1) == 0;
  }

  /** A one-widget list is already sorted. */
  lemma SortedSingleton(x: Widget)
    requires x.z.Some?
    ensures SortDesc([x]) == [x]
  {
    assert SortDesc([x]) == InsertDesc(x, SortDesc([x][1..]));
  }

  /** Two widgets already in descending z stay in place when sorted. */
  lemma SortedPair(x: Widget, y: Widget)
    requires x.z.Some? && y.z.Some? && x.z.value >= y.z.value
    ensures SortDesc([x, y]) == [x, y]
  {
    SortedSingleton(y);
    assert [x, y][1..] == [y];
    assert SortDesc([x, y]) == InsertDesc(x, [y]);
  }

  // ---------------------------------------------------------------------------
  // update: checkWidget
  // ---------------------------------------------------------------------------

  /** checkWidget: every one of the seven fields must be non-null. */
  function CheckWidget(w: Widget): (r: Outcome<ServiceError>)
    ensures r == Pass <==>
      w.id.Some? && w.x.Some? && w.y.Some? && w.z.Some? && w.width.Some? && w.height.Some? && w.lastModified.Some?
    ensures r != Pass ==> r == Fail(NullAttribute)
  {
    if w.id.None? then Fail(NullAttribute)
    else if w.height.None? then Fail(NullAttribute)
    else if w.width.None? then Fail(NullAttribute)
    else if w.lastModified.None? then Fail(NullAttribute)
    else if w.x.None? then Fail(NullAttribute)
    else if w.y.None? then Fail(NullAttribute)
    else if w.z.None? then Fail(NullAttribute)
    else Pass
  }

  /** Replacing the widget with a given id by one with that same id keeps the invariant, and find then returns the new one. */
  lemma ReplaceWellFormed(s: seq<Widget>, id: string, w: Widget)
    requires WellFormed(s) && IndexOfId(s, id).Some?
    requires w.id == Some(id) && w.z.Some? && w.lastModified.Some?
    ensures var s' := s[IndexOfId(s, id).value := w];
            WellFormed(s') && |s'| == |s| && Find(s', id) == Some(w)
  {
    var k := IndexOfId(s, id).value;
    var s' := s[k := w];
    assert forall i :: 0 <= i < |s| ==> s'[i].id == s[i].id;
    FindUnique(s', k);
  }

  // ---------------------------------------------------------------------------
  // delete
  // ---------------------------------------------------------------------------

  /** Deleting the widget with an id keeps the invariant and leaves no widget with that id. */
  lemma RemoveWellFormed(s: seq<Widget>, id: string)
    requires WellFormed(s) && IndexOfId(s, id).Some?
    ensures var k := IndexOfId(s, id).value;
            var s' := s[..k] + s[k + 1..];
            WellFormed(s') && |s'| == |s| - 1 && Find(s', id).None?
  {
    var k := IndexOfId(s, id).value;
    var s' := s[..k] + s[k + 1..];
    assert forall i :: 0 <= i < |s'| ==> s'[i] == s[if i < k then i else i + 1];
    forall i | 0 <= i < |s'| ensures s'[i].id != Some(id) {
      var o := if i < k then i else i + 1;
      assert s'[i] == s[o] && s[k].id == Some(id);
    }
  }

  // ---------------------------------------------------------------------------
  // Reads: paging and filtering
  // ---------------------------------------------------------------------------

  /** `stream().skip(offset).limit(limit)`: the slice [offset, offset + limit) of `s`. */
  function PageOf(s: seq<Widget>, offset: nat, limit: nat): (r: seq<Widget>)
    ensures |r| == if offset >= |s| then 0 else if limit < |s| - offset then limit else |s| - offset
    ensures forall i :: 0 <= i < |r| ==> r[i] == s[offset + i]
  {
    if offset >= |s| then []
    else if offset + limit >= |s| then s[offset..]
    else s[offset..offset + limit]
  }

  /**
   * matchesFilter, with Java's left-to-right `&&`: a null field that is reached throws
   * (None). The width leg measures from yStart, as the code does.
   */
  function MatchesFilter(f: Filter, w: Widget): (r: Option<bool>)
    ensures r == Some(true) <==>
      && w.width.Some? && w.height.Some? && w.x.Some? && w.y.Some?
      && w.width.value <= Wrap(f.xStop - f.yStart)
      && w.height.value <= Wrap(f.yStop - f.yStart)
      && f.xStop > w.x.value
      && f.yStop > w.y.value
    ensures r.None? ==> w.width.None? || w.height.None? || w.x.None? || w.y.None?
    ensures w.width.Some? && w.height.Some? && w.x.Some? && w.y.Some? ==> r.Some?
  {
    var fWidth := Wrap(f.xStop - f.yStart);
    var fHeight := Wrap(f.yStop - f.yStart);
    if w.width.None? then None
    else if !(w.width.value <= fWidth) then Some(false)
    else if w.height.None? then None
    else if !(w.height.value <= fHeight) then Some(false)
    else if w.x.None? then None
    else if !(f.xStop > w.x.value) then Some(false)
    else if w.y.None? then None
    else Some(f.yStop > w.y.value)
  }

  /**
   * The filter step of getFilteredWidgets: the widgets that match, in page order;
   * a widget on which matchesFilter throws makes the whole read throw.
   */
  function FilterWidgets(f: Filter, page: seq<Widget>): (r: Result<seq<Widget>, ServiceError>)
    ensures r.Success? <==> forall i :: 0 <= i < |page| ==> MatchesFilter(f, page[i]).Some?
    ensures r.Failure? ==> r.error == NullPointer
    ensures r.Success? ==> |r.value| <= |page|
    ensures r.Success? ==> forall w :: w in r.value <==> w in page && MatchesFilter(f, w) == Some(true)
  {
    if |page| == 0 then Success([])
    else
      assert forall i :: 1 <= i < |page| ==> page[i] == page[1..][i - 1];
      match MatchesFilter(f, page[0])
      case None => Failure(NullPointer)
      case Some(keep) =>
        match FilterWidgets(f, page[1..])
        case Failure(e) => Failure(e)
        case Success(rest) =>
          assert page == [page[0]] + page[1..];
          Success(if keep then [page[0]] + rest else rest)
  }

  /** Filtering goes element by element, so it keeps page order: it distributes over concatenation. */
  lemma {:induction false} FilterWidgetsAppend(f: Filter, a: seq<Widget>, b: seq<Widget>)
    requires FilterWidgets(f, a).Success? && FilterWidgets(f, b).Success?
    ensures FilterWidgets(f, a + b) == Success(FilterWidgets(f, a).value + FilterWidgets(f, b).value)
    decreases |a|
  {
    var fb := FilterWidgets(f, b).value;
    if |a| == 0 {
      assert a + b == b;
      assert [] + fb == fb;
    } else {
      assert (a + b)[0] == a[0];
      assert (a + b)[1..] == a[1..] + b;
      assert forall i :: 0 <= i < |a[1..]| ==> a[1..][i] == a[i + 1];
      assert FilterWidgets(f, a[1..]).Success?;
      FilterWidgetsAppend(f, a[1..], b);
      var rest := FilterWidgets(f, a[1..]).value;
      if MatchesFilter(f, a[0]) == Some(true) {
        assert FilterWidgets(f, a) == Success([a[0]] + rest);
        assert [a[0]] + (rest + fb) == ([a[0]] + rest) + fb;
      } else {
        assert FilterWidgets(f, a) == Success(rest);
      }
    }
  }

  // ---------------------------------------------------------------------------
  // The service
  // ---------------------------------------------------------------------------

  /**
   * The service object. `dbStore` is the durable-mode flag; whatever the repository
   * answers to a read is passed in (dbHit, dbPage), and its writes are not modelled.
   */
  class WidgetService {
    var storage: seq<Widget>
    const dbStore: bool

    ghost predicate Valid()
      reads this
    {
      WellFormed(storage)
    }

    constructor (dbStore: bool)
      ensures Valid() && storage == [] && this.dbStore == dbStore
    {
      storage := [];
      this.dbStore := dbStore;
    }

    /**
     * create: stamps the fresh id and the time, assigns z when it is null, inserts,
     * and returns a copy of what it stored.
     */
    method Create(w: Widget, freshId: string, now: Timestamp) returns (r: Widget)
      requires Valid() && Find(storage, freshId).None?
      modifies this
      ensures Valid()
      ensures r == Stamped(w, old(storage), freshId, now)
      ensures storage == Placed(SortDesc(old(storage)), r)
      ensures Find(storage, freshId) == Some(r)
    {
      var widget := w.(id := Some(freshId), lastModified := Some(now));
      if widget.z.None? {
        widget := widget.(z := Some(MaxZIndex(storage)));
      }
      CreateThenFind(storage, w, freshId, now);
      FillStorage(widget);
      r := widget;
    }

    /** fillStorage: sort by descending z, insert, then raise the z of what follows. */
    method FillStorage(w: Widget)
      requires Valid()
      requires w.id.Some? && w.z.Some? && w.lastModified.Some?
      requires forall i :: 0 <= i < |storage| ==> storage[i].id != w.id
      modifies this
      ensures Valid()
      ensures storage == Placed(SortDesc(old(storage)), w)
    {
      ghost var before := storage;
      storage := SortDesc(storage);
      if |storage| > 0 {
        var insertIndex := InsertIndex(storage, w.z.value);
        PlacedIsInsertThenBump(storage, w);
        storage := storage[..insertIndex] + [w] + storage[insertIndex..];
        BumpFrom(insertIndex + 1, w.z.value);
      } else {
        storage := [w];
      }
      FillKeepsWellFormed(before, w);
    }

    /**
     * fillStorage's loop: from position `from` on, every widget whose z is at least `z`
     * has its z raised by one (wrapping); the widgets before `from` are left alone.
     */
    method BumpFrom(from: nat, z: int32)
      requires from <= |storage| && HasZ(storage)
      modifies this
      ensures storage == BumpAfter(old(storage), from, z)
    {
      var i := from;
      while i < |storage|
        invariant from <= i <= |storage| == |old(storage)|
        invariant forall j :: 0 <= j < from ==> storage[j] == old(storage)[j]
        invariant forall j :: from <= j < i ==> storage[j] == BumpZ(old(storage)[j], z)
        invariant forall j :: i <= j < |storage| ==> storage[j] == old(storage)[j]
      {
        var elem := storage[i];
        var zIndex := elem.z.value;
        if zIndex >= z {
          storage := storage[i := elem.(z := Some(Inc(zIndex)))];
        }
        i := i + 1;
      }
      assert storage == BumpAfter(old(storage), from, z);
    }

    /**
     * update: a null field throws NullAttribute before the lookup; an unknown id throws
     * WidgetNotFound; otherwise the first widget with that id is replaced by the input,
     * carrying the path id and a new timestamp. No other widget changes, not even a z
     * that now collides.
     */
    method Update(w: Widget, id: string, now: Timestamp) returns (r: Result<Widget, ServiceError>)
      requires Valid()
      modifies this
      ensures Valid()
      ensures CheckWidget(w).Fail? ==> r == Failure(NullAttribute) && storage == old(storage)
      ensures CheckWidget(w) == Pass && IndexOfId(old(storage), id).None? ==>
                r == Failure(WidgetNotFound) && storage == old(storage)
      ensures CheckWidget(w) == Pass && IndexOfId(old(storage), id).Some? ==>
                && r == Success(w.(id := Some(id), lastModified := Some(now)))
                && storage == old(storage)[IndexOfId(old(storage), id).value := r.value]
                && Find(storage, id) == Some(r.value)
    {
      var check := CheckWidget(w);
      if check.Fail? {
        return Failure(check.error);
      }
      var found := Find(storage, id);
      if found.None? {
        return Failure(WidgetNotFound);
      }
      var widget := w.(id := Some(id), lastModified := Some(now));
      var replaceIndex := IndexOfId(storage, id).value;
      ReplaceWellFormed(storage, id, widget);
      storage := storage[replaceIndex := widget];
      r := Success(widget);
    }

    /**
     * getById: with durable mode on and requested, the repository's hit wins; otherwise
     * (or when it misses) the first stored widget with that id, or null.
     */
    function GetById(id: string, fromDb: bool, dbHit: Option<Widget>): (r: Option<Widget>)
      reads this
      ensures dbStore && fromDb && dbHit.Some? ==> r == dbHit
      ensures !(dbStore && fromDb && dbHit.Some?) ==>
                && (r.Some? ==> exists k :: 0 <= k < |storage| && r.value == storage[k] &&
                                 storage[k].id == Some(id) &&
                                 forall j :: 0 <= j < k ==> storage[j].id != Some(id))
                && (r.None? <==> forall i :: 0 <= i < |storage| ==> storage[i].id != Some(id))
    {
      if dbStore && fromDb && dbHit.Some? then dbHit else Find(storage, id)
    }

    /**
     * getWidgets: more than MaxLimit throws TooManyWidgets; a non-empty repository page
     * wins when durable mode is on and requested; otherwise the store is re-sorted in
     * place (descending z) and the slice [offset, offset + limit) of it is returned.
     * (The service's tests expect ascending z here; the code sorts descending.)
     */
    method GetWidgets(offset: nat, limit: nat, fromDb: bool, dbPage: seq<Widget>)
      returns (r: Result<seq<Widget>, ServiceError>)
      requires Valid()
      modifies this
      ensures Valid()
      ensures limit > MaxLimit ==> r == Failure(TooManyWidgets) && storage == old(storage)
      ensures limit <= MaxLimit && dbStore && fromDb && |dbPage| > 0 ==>
                r == Success(dbPage) && storage == old(storage)
      ensures limit <= MaxLimit && !(dbStore && fromDb && |dbPage| > 0) ==>
                storage == SortDesc(old(storage)) && r == Success(PageOf(storage, offset, limit))
    {
      if limit > MaxLimit {
        return Failure(TooManyWidgets);
      }
      if dbStore && fromDb && |dbPage| > 0 {
        return Success(dbPage);
      }
      var page := GetWidgetsFromStorage(offset, limit);
      r := Success(page);
    }

    /** getWidgetsFromStorage: sorts the store in place, then skips and limits. */
    method GetWidgetsFromStorage(offset: nat, limit: nat) returns (page: seq<Widget>)
      requires Valid()
      modifies this
      ensures Valid()
      ensures storage == SortDesc(old(storage))
      ensures page == PageOf(storage, offset, limit)
    {
      SortDescWellFormed(storage);
      storage := SortDesc(storage);
      page := PageOf(storage, offset, limit);
    }

    /** getFilteredWidgets: the getWidgets page, keeping exactly the widgets that match the filter. */
    method GetFilteredWidgets(offset: nat, limit: nat, fromDb: bool, dbPage: seq<Widget>, filter: Filter)
      returns (r: Result<seq<Widget>, ServiceError>)
      requires Valid()
      modifies this
      ensures Valid()
      ensures limit > MaxLimit ==> r == Failure(TooManyWidgets) && storage == old(storage)
      ensures limit <= MaxLimit && dbStore && fromDb && |dbPage| > 0 ==>
                r == FilterWidgets(filter, dbPage) && storage == old(storage)
      ensures limit <= MaxLimit && !(dbStore && fromDb && |dbPage| > 0) ==>
                storage == SortDesc(old(storage)) &&
                r == FilterWidgets(filter, PageOf(storage, offset, limit))
    {
      var page := GetWidgets(offset, limit, fromDb, dbPage);
      if page.Failure? {
        return page;
      }
      r := FilterWidgets(filter, page.value);
    }

    /** delete: an unknown id throws WidgetNotFound; otherwise the first widget with that id is removed. */
    method Delete(id: string) returns (r: Outcome<ServiceError>)
      requires Valid()
      modifies this
      ensures Valid()
      ensures IndexOfId(old(storage), id).None? ==> r == Fail(WidgetNotFound) && storage == old(storage)
      ensures IndexOfId(old(storage), id).Some? ==>
                var k := IndexOfId(old(storage), id).value;
                && r == Pass
                && storage == old(storage)[..k] + old(storage)[k + 1..]
                && Find(storage, id).None?
    {
      var widget := Find(storage, id);
      if widget.None? {
        return Fail(WidgetNotFound);
      }
      var k := IndexOfId(storage, id).value;
      RemoveWellFormed(storage, id);
      storage := storage[..k] + storage[k + 1..];
      r := Pass;
    }
  }
}
