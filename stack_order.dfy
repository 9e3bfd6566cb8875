/**
 * The stacking order the store keeps: `storage.sort(Collections.reverseOrder())`,
 * a stable sort by descending z, and the widget that `max(Collections.reverseOrder())` picks.
 */
module StackOrder {
  import opened Wrappers
  import opened Int32
  import opened WidgetModel

  /** Every widget has a z; true of everything the store holds. */
  ghost predicate HasZ(s: seq<Widget>)
  {
    forall i :: 0 <= i < |s| ==> s[i].z.Some?
  }

  /** Descending by z: a higher z never follows a lower one. */
  ghost predicate SortedDesc(s: seq<Widget>)
  {
    HasZ(s) && forall i, j :: 0 <= i < j < |s| ==> s[i].z.value >= s[j].z.value
  }

  /** The widgets of `s` whose z is `v`, in their order in `s`. */
  function WithZ(s: seq<Widget>, v: int32): (r: seq<Widget>)
  {
    if |s| == 0 then [] else (if s[0].z == Some(v) then [s[0]] else []) + WithZ(s[1..], v)
  }

  /** Puts `x` behind every strictly higher z of `t` and ahead of everything else. */
  function InsertDesc(x: Widget, t: seq<Widget>): (r: seq<Widget>)
    requires x.z.Some? && HasZ(t)
    ensures HasZ(r)
    ensures multiset(r) == multiset(t) + multiset{x}
    decreases |t|
  {
    if |t| == 0 || CompareZ(x, t[0]) >= 0 then [x] + t
    else
      assert t == [t[0]] + t[1..];
      [t[0]] + InsertDesc(x, t[1..])
  }

  /** A bound on every z of `t` and on x's z bounds every z after the insertion. */
  lemma {:induction false} InsertDescBounded(x: Widget, t: seq<Widget>, bound: int)
    requires x.z.Some? && HasZ(t)
    requires x.z.value <= bound && forall i :: 0 <= i < |t| ==> t[i].z.value <= bound
    ensures forall i :: 0 <= i < |InsertDesc(x, t)| ==> InsertDesc(x, t)[i].z.value <= bound
    decreases |t|
  {
    if |t| > 0 && CompareZ(x, t[0]) < 0 {
      InsertDescBounded(x, t[1..], bound);
    }
  }

  /** Inserting into a descending list keeps it descending. */
  lemma {:induction false} InsertDescSorted(x: Widget, t: seq<Widget>)
    requires x.z.Some? && SortedDesc(t)
    ensures SortedDesc(InsertDesc(x, t))
    decreases |t|
  {
    if |t| == 0 || CompareZ(x, t[0]) >= 0 {
      var r := [x] + t;
      forall i, j | 0 <= i < j < |r| ensures r[i].z.value >= r[j].z.value {
        assert r[j] == t[j - 1];
        if i > 0 {
          assert r[i] == t[i - 1];
        }
      }
    } else {
      var rest := t[1..];
      assert SortedDesc(rest);
      InsertDescSorted(x, rest);
      InsertDescBounded(x, rest, t[0].z.value);
      var ins := InsertDesc(x, rest);
      var r := [t[0]] + ins;
      forall i, j | 0 <= i < j < |r| ensures r[i].z.value >= r[j].z.value {
        assert r[j] == ins[j - 1];
        if i > 0 {
          assert r[i] == ins[i - 1];
        }
      }
    }
  }

  /** List.sort(Collections.reverseOrder()): stable insertion sort by descending z. */
  function SortDesc(s: seq<Widget>): (r: seq<Widget>)
    requires HasZ(s)
    ensures SortedDesc(r)
    ensures multiset(r) == multiset(s)
  {
    if |s| == 0 then [] else
      assert s == [s[0]] + s[1..];
      InsertDescSorted(s[0], SortDesc(s[1..]));
      InsertDesc(s[0], SortDesc(s[1..]))
  }

  lemma {:induction false} WithZConcat(a: seq<Widget>, b: seq<Widget>, v: int32)
    ensures WithZ(a + b, v) == WithZ(a, v) + WithZ(b, v)
    decreases |a|
  {
    if |a| == 0 {
      assert a + b == b;
    } else {
      var head := if a[0].z == Some(v) then [a[0]] else [];
      assert (a + b)[0] == a[0];
      assert (a + b)[1..] == a[1..] + b;
      assert WithZ(a + b, v) == head + WithZ(a[1..] + b, v);
      WithZConcat(a[1..], b, v);
      assert WithZ(a, v) == head + WithZ(a[1..], v);
    }
  }

  /** Inserting `x` keeps it ahead of every widget with the same z. */
  lemma {:induction false} InsertDescKeepsTies(x: Widget, t: seq<Widget>, v: int32)
    requires x.z.Some? && HasZ(t)
    ensures WithZ(InsertDesc(x, t), v) == WithZ([x] + t, v)
    decreases |t|
  {
    if |t| == 0 || CompareZ(x, t[0]) >= 0 {
    } else {
      var rest := t[1..];
      assert t == [t[0]] + rest;
      InsertDescKeepsTies(x, rest, v);
      calc {
        WithZ(InsertDesc(x, t), v);
        WithZ([t[0]] + InsertDesc(x, rest), v);
        { WithZConcat([t[0]], InsertDesc(x, rest), v); }
        WithZ([t[0]], v) + WithZ(InsertDesc(x, rest), v);
        WithZ([t[0]], v) + WithZ([x] + rest, v);
        { WithZConcat([x], rest, v); }
        WithZ([t[0]], v) + WithZ([x], v) + WithZ(rest, v);
        // t[0] and x have different z, so at most one of them is kept
        WithZ([x], v) + WithZ([t[0]], v) + WithZ(rest, v);
        { WithZConcat([t[0]], rest, v); }
        WithZ([x], v) + WithZ(t, v);
        { WithZConcat([x], t, v); }
        WithZ([x] + t, v);
      }
    }
  }

  /** The sort is stable: widgets with equal z keep their relative order. */
  lemma {:induction false} SortDescStable(s: seq<Widget>, v: int32)
    requires HasZ(s)
    ensures WithZ(SortDesc(s), v) == WithZ(s, v)
  {
    if |s| > 0 {
      assert s == [s[0]] + s[1..];
      SortDescStable(s[1..], v);
      InsertDescKeepsTies(s[0], SortDesc(s[1..]), v);
      WithZConcat([s[0]], SortDesc(s[1..]), v);
      WithZConcat([s[0]], s[1..], v);
    }
  }

  /** Sorting an already descending list leaves it as it is. */
  lemma {:induction false} SortDescKeepsSorted(s: seq<Widget>)
    requires SortedDesc(s)
    ensures SortDesc(s) == s
  {
    if |s| > 0 {
      assert SortedDesc(s[1..]);
      SortDescKeepsSorted(s[1..]);
      assert s == [s[0]] + s[1..];
    }
  }

  /**
   * The z of the widget `max(Collections.reverseOrder())` returns: the greatest
   * widget under reverse order is the least under compareTo, so this is the least z.
   */
  function LeastZ(s: seq<Widget>): (r: int32)
    requires |s| > 0 && HasZ(s)
    ensures exists i :: 0 <= i < |s| && s[i].z == Some(r)
    ensures forall i :: 0 <= i < |s| ==> r <= s[i].z.value
  {
    if |s| == 1 then s[0].z.value
    else
      var m := LeastZ(s[1..]);
      assert forall i :: 1 <= i < |s| ==> s[i] == s[1..][i - 1];
      if s[0].z.value <= m then s[0].z.value else m
  }
}
