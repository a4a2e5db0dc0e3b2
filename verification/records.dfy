/** Generic queries over append-only record lists: kind filters, the stable
    newest-first sort every listing uses, and the "latest of a kind" view. */
module Records {
  import opened Wrappers

  /** The records whose key is `k`, in insertion order: `filter(d => key(d) === k)`. The
      listings filter by kind (`d.dataType === t`) and by stamp (`d.timestamp.getTime() === time`)
      with it. */
  function Where<T(!new), K(==)>(s: seq<T>, key: T -> K, k: K): (r: seq<T>)
    ensures forall x :: x in r <==> x in s && key(x) == k
    ensures multiset(r) <= multiset(s)
  {
    if s == [] then []
    else
      assert s == [s[0]] + s[1..];
      (if key(s[0]) == k then [s[0]] else []) + Where(s[1..], key, k)
  }

  /** `after` is `before` followed by one record of each kind in `kinds`, in that order. */
  predicate Appended<T(==)>(before: seq<T>, after: seq<T>, kind: T -> string, kinds: seq<string>) {
    && |after| == |before| + |kinds| && after[..|before|] == before
    && forall i :: 0 <= i < |kinds| ==> kind(after[|before| + i]) == kinds[i]
  }

  lemma AppendedNone<T>(before: seq<T>, kind: T -> string)
    ensures Appended(before, before, kind, [])
  {
  }

  lemma AppendedOne<T>(before: seq<T>, x: T, kind: T -> string)
    ensures Appended(before, before + [x], kind, [kind(x)])
  {
    assert (before + [x])[..|before|] == before;
  }

  lemma AppendedTrans<T>(a: seq<T>, b: seq<T>, c: seq<T>, kind: T -> string, k1: seq<string>, k2: seq<string>)
    requires Appended(a, b, kind, k1) && Appended(b, c, kind, k2)
    ensures Appended(a, c, kind, k1 + k2)
  {
    assert c[..|a|] == c[..|b|][..|a|];
    forall i | 0 <= i < |k1 + k2|
      ensures kind(c[|a| + i]) == (k1 + k2)[i]
    {
      if i < |k1| {
        assert c[|a| + i] == c[..|b|][|a| + i];
      } else {
        assert c[|a| + i] == c[|b| + (i - |k1|)];
      }
    }
  }

  predicate SortedDesc<T>(s: seq<T>, stamp: T -> int) {
    forall i, j :: 0 <= i < j < |s| ==> stamp(s[i]) >= stamp(s[j])
  }

  /** Inserts `x` ahead of every record whose stamp is not larger, so that `x`,
      inserted earlier than all of `s`, stays ahead of its equals. */
  function InsertDesc<T>(x: T, s: seq<T>, stamp: T -> int): (r: seq<T>)
    ensures multiset(r) == multiset(s) + multiset{x}
  {
    if s == [] || stamp(s[0]) <= stamp(x) then [x] + s
    else
      assert s == [s[0]] + s[1..];
      [s[0]] + InsertDesc(x, s[1..], stamp)
  }

  lemma {:induction false} InsertDescSorted<T>(x: T, s: seq<T>, stamp: T -> int)
    requires SortedDesc(s, stamp)
    ensures SortedDesc(InsertDesc(x, s, stamp), stamp)
  {
    if s != [] && stamp(s[0]) > stamp(x) {
      var tail := InsertDesc(x, s[1..], stamp);
      InsertDescSorted(x, s[1..], stamp);
      forall j | 0 <= j < |tail|
        ensures stamp(tail[j]) <= stamp(s[0])
      {
        assert tail[j] in multiset(tail);
        assert tail[j] == x || tail[j] in s[1..];
      }
      var r := [s[0]] + tail;
      forall i, j | 0 <= i < j < |r|
        ensures stamp(r[i]) >= stamp(r[j])
      {
        assert r[j] == tail[j - 1];
        if i > 0 {
          assert r[i] == tail[i - 1];
        }
      }
    } else {
      var r := [x] + s;
      forall i, j | 0 <= i < j < |r|
        ensures stamp(r[i]) >= stamp(r[j])
      {
        assert r[j] == s[j - 1];
        if i > 0 {
          assert r[i] == s[i - 1];
        } else if s != [] {
          assert stamp(s[0]) >= stamp(s[j - 1]);
        }
      }
    }
  }

  /** `Array.prototype.sort((a, b) => stamp(b) - stamp(a))`: newest first, and
      (the sort being stable) records with equal stamps keep insertion order. */
  function SortDesc<T>(s: seq<T>, stamp: T -> int): (r: seq<T>)
    ensures multiset(r) == multiset(s)
    ensures SortedDesc(r, stamp)
  {
    if s == [] then []
    else
      assert s == [s[0]] + s[1..];
      InsertDescSorted(s[0], SortDesc(s[1..], stamp), stamp);
      InsertDesc(s[0], SortDesc(s[1..], stamp), stamp)
  }

  /** Reference definition of "the latest record of kind `t`": the index of the
      earliest-inserted record of that kind whose stamp no other record of the kind exceeds. */
  function FirstMax<T>(s: seq<T>, kind: T -> string, t: string, stamp: T -> int): (r: Option<nat>)
    ensures r.None? <==> forall i :: 0 <= i < |s| ==> kind(s[i]) != t
    ensures r.Some? ==> r.value < |s| && kind(s[r.value]) == t
    ensures r.Some? ==> forall i :: 0 <= i < |s| && kind(s[i]) == t ==> stamp(s[i]) <= stamp(s[r.value])
    ensures r.Some? ==> forall i :: 0 <= i < r.value && kind(s[i]) == t ==> stamp(s[i]) < stamp(s[r.value])
  {
    if s == [] then None
    else
      var m := FirstMax(s[1..], kind, t, stamp);
      if kind(s[0]) != t then
        (if m.None? then None else Some(m.value + 1))
      else if m.None? || stamp(s[m.value + 1]) <= stamp(s[0]) then Some(0)
      else Some(m.value + 1)
  }

  /** `filter(kind === t).sort(newest first)[0]`, the way every latest-of-a-kind query is written. */
  function Latest<T(!new)>(s: seq<T>, kind: T -> string, t: string, stamp: T -> int): (r: Option<T>)
    ensures r.None? <==> forall x :: x in s ==> kind(x) != t
    ensures r.Some? ==> r.value in s && kind(r.value) == t
    ensures r.Some? ==> forall x :: x in s && kind(x) == t ==> stamp(x) <= stamp(r.value)
  {
    var w := Where(s, kind, t);
    var sorted := SortDesc(w, stamp);
    SameMembers(sorted, w);
    assert forall x :: x in sorted <==> x in s && kind(x) == t;
    if sorted == [] then None
    else
      HeadIsNewest(sorted, stamp);
      assert sorted[0] in sorted;
      Some(sorted[0])
  }

  lemma SameMembers<T>(a: seq<T>, b: seq<T>)
    requires multiset(a) == multiset(b)
    ensures forall x :: x in a <==> x in b
  {
    assert forall x :: x in a <==> x in multiset(a);
    assert forall x :: x in b <==> x in multiset(b);
  }

  /** The head of a newest-first list is at least as new as every element. */
  lemma HeadIsNewest<T>(s: seq<T>, stamp: T -> int)
    requires SortedDesc(s, stamp) && s != []
    ensures forall x :: x in s ==> stamp(x) <= stamp(s[0])
  {
    forall x | x in s
      ensures stamp(x) <= stamp(s[0])
    {
      var j :| 0 <= j < |s| && s[j] == x;
    }
  }

  /** The head of the sorted kind-filtered list is exactly the reference latest record:
      the first-inserted record of maximal stamp. */
  lemma {:induction false} LatestIsFirstMax<T(!new)>(s: seq<T>, kind: T -> string, t: string, stamp: T -> int)
    ensures Latest(s, kind, t, stamp).None? <==> FirstMax(s, kind, t, stamp).None?
    ensures Latest(s, kind, t, stamp).Some? ==>
              Latest(s, kind, t, stamp).value == s[FirstMax(s, kind, t, stamp).value]
  {
    if s != [] {
      LatestIsFirstMax(s[1..], kind, t, stamp);
      var m := FirstMax(s[1..], kind, t, stamp);
      var l := Latest(s[1..], kind, t, stamp);
      assert m.Some? ==> l.value == s[1..][m.value] == s[m.value + 1];
      FirstMaxStep(s, kind, t, stamp);
      if kind(s[0]) == t {
        LatestSame(s, kind, t, stamp);
      } else {
        LatestOther(s, kind, t, stamp);
      }
    }
  }

  /** One step of the reference definition, in terms of the rest of the list. */
  lemma FirstMaxStep<T>(s: seq<T>, kind: T -> string, t: string, stamp: T -> int)
    requires s != []
    ensures var m := FirstMax(s[1..], kind, t, stamp);
            FirstMax(s, kind, t, stamp) ==
              if kind(s[0]) != t then (if m.None? then None else Some(m.value + 1))
              else if m.None? || stamp(s[m.value + 1]) <= stamp(s[0]) then Some(0)
              else Some(m.value + 1)
  {
  }

  /** A leading record of another kind does not change the latest record. */
  lemma LatestOther<T(!new)>(s: seq<T>, kind: T -> string, t: string, stamp: T -> int)
    requires s != [] && kind(s[0]) != t
    ensures Latest(s, kind, t, stamp) == Latest(s[1..], kind, t, stamp)
  {
    assert Where(s, kind, t) == Where(s[1..], kind, t);
  }

  /** A leading record of the kind is the latest unless a later one is strictly newer. */
  lemma LatestSame<T(!new)>(s: seq<T>, kind: T -> string, t: string, stamp: T -> int)
    requires s != [] && kind(s[0]) == t
    ensures var l := Latest(s[1..], kind, t, stamp);
            Latest(s, kind, t, stamp) == Some(if l.None? || stamp(l.value) <= stamp(s[0]) then s[0] else l.value)
  {
    var rest := Where(s[1..], kind, t);
    assert Where(s, kind, t) == [s[0]] + rest;
    HeadOfInsert(s[0], rest, stamp);
  }

  /** The latest record of kind `t`, stated on the records themselves: there is none iff no
      record has kind `t`; otherwise it is a record of kind `t` at some position `k` that no
      record of the kind postdates and that every earlier record of the kind predates. */
  lemma LatestSpec<T(!new)>(s: seq<T>, kind: T -> string, t: string, stamp: T -> int)
    ensures Latest(s, kind, t, stamp).None? <==> forall i :: 0 <= i < |s| ==> kind(s[i]) != t
    ensures Latest(s, kind, t, stamp).Some? ==>
              exists k :: 0 <= k < |s| && LatestAt(s, kind, t, stamp, k) && s[k] == Latest(s, kind, t, stamp).value
  {
    LatestIsFirstMax(s, kind, t, stamp);
    var m := FirstMax(s, kind, t, stamp);
    if m.Some? {
      assert LatestAt(s, kind, t, stamp, m.value);
    }
  }

  /** Position `k` holds a record of kind `t` that no record of the kind postdates and that
      every earlier record of the kind strictly predates. */
  predicate LatestAt<T>(s: seq<T>, kind: T -> string, t: string, stamp: T -> int, k: int) {
    && 0 <= k < |s| && kind(s[k]) == t
    && (forall i :: 0 <= i < |s| && kind(s[i]) == t ==> stamp(s[i]) <= stamp(s[k]))
    && (forall i :: 0 <= i < k && kind(s[i]) == t ==> stamp(s[i]) < stamp(s[k]))
  }

  /** A kind filter every record passes keeps the whole list. */
  lemma {:induction false} WhereAll<T(!new)>(s: seq<T>, kind: T -> string, t: string)
    requires forall i :: 0 <= i < |s| ==> kind(s[i]) == t
    ensures Where(s, kind, t) == s
  {
    if s != [] {
      WhereAll(s[1..], kind, t);
      assert s == [s[0]] + s[1..];
    }
  }

  lemma HeadOfInsert<T>(x: T, rest: seq<T>, stamp: T -> int)
    ensures var sorted := SortDesc([x] + rest, stamp);
            var tail := SortDesc(rest, stamp);
            sorted != [] && sorted[0] == (if tail == [] || stamp(tail[0]) <= stamp(x) then x else tail[0])
  {
    var f := [x] + rest;
    assert f[0] == x && f[1..] == rest;
  }

  /** The listing behind every `get...Data(dataType?, timestamp?)` query: the optional
      kind filter (skipped when absent or empty), the optional exact-stamp filter, then
      the newest-first sort. */
  function Listing<T(!new)>(s: seq<T>, kind: T -> string, stamp: T -> int, dataType: Option<string>, time: Option<int>): (r: seq<T>)
    ensures forall x :: x in r <==> x in s && Selected(x, kind, stamp, dataType, time)
    ensures multiset(r) <= multiset(s)
    ensures SortedDesc(r, stamp)
  {
    var byKind := if TruthyString(dataType) then Where(s, kind, dataType.value) else s;
    var byTime := if time.Some? then Where(byKind, stamp, time.value) else byKind;
    assert forall x :: x in byTime <==> x in s && Selected(x, kind, stamp, dataType, time);
    var r := SortDesc(byTime, stamp);
    assert forall x :: x in r <==> x in multiset(byTime);
    r
  }

  /** The optional listing filters: a kind (ignored when absent or empty) and an exact stamp. */
  predicate Selected<T>(x: T, kind: T -> string, stamp: T -> int, dataType: Option<string>, time: Option<int>) {
    && (TruthyString(dataType) ==> kind(x) == dataType.value)
    && (time.Some? ==> stamp(x) == time.value)
  }
}
