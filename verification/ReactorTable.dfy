/**
 * The descriptor table as a sequence: removal moves the last entry into the hole, and a pass
 * removes the listed indices one after the other in ascending order.
 */
module ReactorTable {

  ghost predicate Distinct<T>(t: seq<T>) {
    forall i, j :: 0 <= i < j < |t| ==> t[i] != t[j]
  }

  predicate Increasing(list: seq<nat>) {
    forall i, j :: 0 <= i < j < |list| ==> list[i] < list[j]
  }

  /** One removal, seen on the live entries; an index beyond them only loses the last entry. */
  function RemoveOne<T>(t: seq<T>, i: nat): (r: seq<T>)
    requires |t| > 0
    ensures |r| == |t| - 1
  {
    var n := |t| - 1;
    if i < n then t[i := t[n]][..n] else t[..n]
  }

  /** The removal loop of a pass. */
  function RemoveAll<T>(t: seq<T>, list: seq<nat>): (r: seq<T>)
    requires |list| <= |t|
    ensures |r| == |t| - |list|
    decreases |list|
  {
    if list == [] then t
    else RemoveOne(RemoveAll(t, list[..|list| - 1]), list[|list| - 1])
  }

  // ----- What every removal keeps -----

  lemma {:induction false} RemoveKeepsDistinct<T>(t: seq<T>, list: seq<nat>)
    requires |list| <= |t| && Distinct(t)
    ensures Distinct(RemoveAll(t, list))
    decreases |list|
  {
    if list != [] {
      RemoveKeepsDistinct(t, list[..|list| - 1]);
    }
  }

  /** Slot 0 keeps its entry as long as it is not listed and another entry is left beside it. */
  lemma {:induction false} RemoveKeepsFirst<T>(t: seq<T>, list: seq<nat>)
    requires |list| < |t| && forall j :: 0 <= j < |list| ==> list[j] > 0
    ensures RemoveAll(t, list)[0] == t[0]
    decreases |list|
  {
    if list != [] {
      RemoveKeepsFirst(t, list[..|list| - 1]);
    }
  }

  /** Every entry that is left was there before. */
  lemma {:induction false} RemoveKeepsOnly<T>(t: seq<T>, list: seq<nat>, s: nat) returns (i: nat)
    requires |list| <= |t| && s < |RemoveAll(t, list)|
    ensures i < |t| && RemoveAll(t, list)[s] == t[i]
    decreases |list|
  {
    if list == [] {
      i := s;
    } else {
      var before, hole := RemoveAll(t, list[..|list| - 1]), list[|list| - 1];
      i := RemoveKeepsOnly(t, list[..|list| - 1], if s == hole then |before| - 1 else s);
    }
  }

  // ----- Where the entries end up -----

  /** None of the first `count` removals writes to slot `s`. */
  ghost predicate Untouched(list: seq<nat>, count: nat, s: nat)
    requires count <= |list|
  {
    forall j :: 0 <= j < count ==> list[j] != s
  }

  /** After the first `count` removals, as far as the slots that survive all of them are concerned. */
  lemma {:induction false} AfterSome<T>(t: seq<T>, list: seq<nat>, count: nat)
    requires count <= |list| <= |t| && Increasing(list)
    ensures var r, m := RemoveAll(t, list[..count]), |t| - |list|;
            && (forall s :: 0 <= s < m && Untouched(list, count, s) ==> r[s] == t[s])
            && (forall j :: 0 <= j < count && list[j] < m ==> r[list[j]] == t[|t| - 1 - j])
            && (forall s :: m <= s < |r| && (count > 0 ==> list[count - 1] < m) ==> r[s] == t[s])
  {
    if count > 0 {
      AfterSome(t, list, count - 1);
      assert list[..count][..count - 1] == list[..count - 1];
      var before, r := RemoveAll(t, list[..count - 1]), RemoveAll(t, list[..count]);
      var m, i := |t| - |list|, list[count - 1];
      assert r == RemoveOne(before, i);
      forall s | 0 <= s < m && Untouched(list, count, s)
        ensures r[s] == t[s]
      {
        assert list[count - 1] != s && Untouched(list, count - 1, s);
      }
    }
  }

  /** The closed form: slot `list[j]` ends up with the entry of slot `|t| - 1 - j`, every other slot keeps its own. */
  lemma {:induction false} FinalSlots<T>(t: seq<T>, list: seq<nat>)
    requires |list| <= |t| && Increasing(list)
    ensures var r := RemoveAll(t, list);
            && (forall s :: 0 <= s < |r| && s !in list ==> r[s] == t[s])
            && (forall j :: 0 <= j < |list| && list[j] < |r| ==> r[list[j]] == t[|t| - 1 - j])
  {
    AfterSome(t, list, |list|);
    assert list[..|list|] == list;
    forall s | 0 <= s < |t| - |list| && s !in list
      ensures RemoveAll(t, list)[s] == t[s]
    {
      assert Untouched(list, |list|, s);
    }
  }

  // ----- When batch removal is exact -----

  /** `x` is the entry of `t` at index `i`, and `i` is not listed. */
  ghost predicate KeptAt<T>(t: seq<T>, list: seq<nat>, i: nat, x: T) {
    i < |t| && i !in list && t[i] == x
  }

  /** `r` holds exactly the entries of `t` at the indices that are not listed. */
  ghost predicate ExactlyKept<T(!new)>(t: seq<T>, list: seq<nat>, r: seq<T>) {
    forall x :: x in r <==> exists i :: KeptAt(t, list, i, x)
  }

  /** The `i`-th removal fills its hole from slot `n - 1 - i`; a hole that survives must not get a listed entry. */
  predicate HoleOK(n: nat, list: seq<nat>, i: nat)
    requires i < |list| <= n
  {
    list[i] < n - |list| ==> n - 1 - i !in list
  }

  /** No hole that survives the pass is filled from a slot that is itself listed. */
  predicate Clean(n: nat, list: seq<nat>)
    requires |list| <= n
  {
    forall i :: 0 <= i < |list| ==> HoleOK(n, list, i)
  }

  lemma {:induction false} IncreasingGap(list: seq<nat>, a: nat, b: nat)
    requires Increasing(list) && a <= b < |list|
    ensures list[a] + (b - a) <= list[b]
    decreases b - a
  {
    if a < b {
      IncreasingGap(list, a, b - 1);
    }
  }

  /** How many listed indices lie below `bound`. */
  ghost function Below(list: seq<nat>, bound: int): (h: nat)
    requires Increasing(list)
    ensures h <= |list|
    ensures forall j :: 0 <= j < |list| ==> (j < h <==> list[j] < bound)
    decreases |list|
  {
    if list == [] then 0
    else var init := list[..|list| - 1];
         var h := Below(init, bound);
         assert forall j :: 0 <= j < |init| ==> list[j] == init[j];
         if list[|list| - 1] < bound then |list| else h
  }

  /** In a clean list with `h` surviving holes, nothing is listed in the last `h` slots. */
  lemma TopIsLow(n: nat, list: seq<nat>, h: nat)
    requires Increasing(list) && |list| <= n && Clean(n, list) && h < |list|
    requires forall j :: 0 <= j < |list| ==> list[j] < n && (j < h <==> list[j] < n - |list|)
    ensures list[|list| - 1] < n - h
  {
    var top := list[|list| - 1];
    assert HoleOK(n, list, if top >= n - h then n - 1 - top else 0);
  }

  /** The k - h listed slots above the surviving ones fill the k - h slots below the last `h`. */
  lemma TailSlotListed(n: nat, list: seq<nat>, h: nat, q: nat)
    requires Increasing(list) && |list| <= n && Clean(n, list) && h < |list|
    requires forall j :: 0 <= j < |list| ==> list[j] < n && (j < h <==> list[j] < n - |list|)
    requires n - |list| <= q < n - h
    ensures q in list
  {
    TopIsLow(n, list, h);
    var m := q - (n - |list|);
    IncreasingGap(list, h, h + m);
    IncreasingGap(list, h + m, |list| - 1);
    assert list[h + m] == q;
  }

  /** A list is clean exactly when it stays out of the last `h` slots, `h` being the number of surviving holes. */
  lemma CleanIsLow(n: nat, list: seq<nat>)
    requires Increasing(list) && |list| <= n && forall j :: 0 <= j < |list| ==> list[j] < n
    ensures Clean(n, list) <==> list == [] || list[|list| - 1] < n - Below(list, n - |list|)
  {
    if list != [] {
      var h, top := Below(list, n - |list|), list[|list| - 1];
      if Clean(n, list) && h < |list| {
        TopIsLow(n, list, h);
      }
      if top < n - h {
        forall i | 0 <= i < |list|
          ensures HoleOK(n, list, i)
        {
          if j :| 0 <= j < |list| && list[j] == n - 1 - i { IncreasingGap(list, j, |list| - 1); }
        }
      }
    }
  }

  /** In a clean list, an unlisted slot above the surviving ones is the source of some hole. */
  lemma TailKeeperMoves(n: nat, list: seq<nat>, q: nat) returns (i: nat)
    requires Increasing(list) && |list| <= n && Clean(n, list)
    requires forall j :: 0 <= j < |list| ==> list[j] < n
    requires n - |list| <= q < n && q !in list
    ensures i < |list| && list[i] < n - |list| && q == n - 1 - i
  {
    var h := Below(list, n - |list|);
    i := n - 1 - q;
    if i >= h {
      TailSlotListed(n, list, h, q);
    }
  }

  /**
   * For distinct entries and strictly increasing indices, the ascending removal loop leaves exactly
   * the entries at the other indices if and only if the list is clean.
   */
  lemma BatchRemovalExact<T(!new)>(t: seq<T>, list: seq<nat>)
    requires Distinct(t) && Increasing(list) && |list| <= |t|
    requires forall j :: 0 <= j < |list| ==> list[j] < |t|
    ensures (forall i :: 0 <= i < |t| ==> (t[i] in RemoveAll(t, list) <==> i !in list)) <==>
            (forall i :: 0 <= i < |list| && list[i] < |t| - |list| ==> |t| - 1 - i !in list)
  {
    hide *;
    CleanMeans(|t|, list);
    BatchRemoval(t, list);
    NothingNew(t, list);
    KeptMeans(t, list, RemoveAll(t, list));
  }

  lemma NothingNew<T>(t: seq<T>, list: seq<nat>)
    requires |list| <= |t|
    ensures forall x :: x in RemoveAll(t, list) ==> x in t
  {
    forall x | x in RemoveAll(t, list)
      ensures x in t
    {
      var s: nat :| s < |RemoveAll(t, list)| && RemoveAll(t, list)[s] == x;
      var i := RemoveKeepsOnly(t, list, s);
    }
  }

  lemma CleanMeans(n: nat, list: seq<nat>)
    requires |list| <= n
    ensures Clean(n, list) <==> forall i :: 0 <= i < |list| && list[i] < n - |list| ==> n - 1 - i !in list
  {
    if Clean(n, list) {
      forall i | 0 <= i < |list| && list[i] < n - |list|
        ensures n - 1 - i !in list
      {
        assert HoleOK(n, list, i);
      }
    }
  }

  /** Of distinct entries. */
  lemma KeptMeans<T(!new)>(t: seq<T>, list: seq<nat>, r: seq<T>)
    requires Distinct(t) && forall x :: x in r ==> x in t
    ensures ExactlyKept(t, list, r) <==> forall i :: 0 <= i < |t| ==> (t[i] in r <==> i !in list)
  {
    forall i | 0 <= i < |t|
      ensures (exists j :: KeptAt(t, list, j, t[i])) <==> i !in list
    {
      if i !in list { assert KeptAt(t, list, i, t[i]); }
    }
    if forall i :: 0 <= i < |t| ==> (t[i] in r <==> i !in list) {
      forall x
        ensures x in r <==> exists j :: KeptAt(t, list, j, x)
      {
        if x in r {
          var i: nat :| i < |t| && t[i] == x;
          assert KeptAt(t, list, i, x);
        }
      }
    }
  }

  lemma BatchRemoval<T(!new)>(t: seq<T>, list: seq<nat>)
    requires Distinct(t) && Increasing(list) && |list| <= |t|
    requires forall j :: 0 <= j < |list| ==> list[j] < |t|
    ensures ExactlyKept(t, list, RemoveAll(t, list)) <==> Clean(|t|, list)
  {
    if Clean(|t|, list) {
      forall x
        ensures x in RemoveAll(t, list) <==> exists i :: KeptAt(t, list, i, x)
      {
        if x in RemoveAll(t, list) { LeftWasKept(t, list, x); }
        if i :| KeptAt(t, list, i, x) { KeptIsLeft(t, list, i, x); }
      }
    } else {
      var i :| 0 <= i < |list| && !HoleOK(|t|, list, i);
      ListedSurvives(t, list, i, t[|t| - 1 - i]);
    }
  }

  lemma LeftWasKept<T>(t: seq<T>, list: seq<nat>, x: T)
    requires Increasing(list) && |list| <= |t| && Clean(|t|, list) && x in RemoveAll(t, list)
    ensures exists i :: KeptAt(t, list, i, x)
  {
    var r := RemoveAll(t, list);
    FinalSlots(t, list);
    var s :| 0 <= s < |r| && r[s] == x;
    if s in list {
      var i :| 0 <= i < |list| && list[i] == s;
      assert HoleOK(|t|, list, i);
      assert KeptAt(t, list, |t| - 1 - i, x);
    } else {
      assert KeptAt(t, list, s, x);
    }
  }

  lemma KeptIsLeft<T>(t: seq<T>, list: seq<nat>, q: nat, x: T)
    requires Increasing(list) && |list| <= |t| && Clean(|t|, list) && KeptAt(t, list, q, x)
    requires forall j :: 0 <= j < |list| ==> list[j] < |t|
    ensures x in RemoveAll(t, list)
  {
    hide RemoveAll, Clean;
    var r := RemoveAll(t, list);
    FinalSlots(t, list);
    if q < |r| {
      assert r[q] == x;
    } else {
      var i := TailKeeperMoves(|t|, list, q);
      var s := list[i];
      assert r[s] == t[|t| - 1 - i];
    }
  }

  /** A hole filled from a listed slot keeps an entry that should be gone. */
  lemma ListedSurvives<T>(t: seq<T>, list: seq<nat>, i: nat, x: T)
    requires Distinct(t) && Increasing(list) && i < |list| <= |t| && !HoleOK(|t|, list, i)
    requires x == t[|t| - 1 - i]
    ensures x in RemoveAll(t, list)
    ensures forall p :: !KeptAt(t, list, p, x)
  {
    FinalSlots(t, list);
    var r, s, q := RemoveAll(t, list), list[i], |t| - 1 - i;
    assert r[s] == x && q in list;
    assert forall p :: 0 <= p < |t| && t[p] == x ==> p == q;
  }

  /** Two cases in which the list is clean: all indices stay below the entries that move, or all are the last ones. */
  lemma CleanCases(n: nat, list: seq<nat>)
    requires |list| <= n
    ensures (forall j :: 0 <= j < |list| ==> list[j] < n - |list|) ==> Clean(n, list)
    ensures (forall j :: 0 <= j < |list| ==> list[j] == n - |list| + j) ==> Clean(n, list)
  {
  }

  /** A single removal is always exact; two removals need not be. */
  lemma OneIsCleanTwoNeedNotBe(i: nat, n: nat)
    requires i < n
    ensures Clean(n, [i])
    ensures !Clean(4, [1, 3]) && RemoveAll(["L", "a", "b", "c"], [1, 3]) == ["L", "c"]
  {
    var t, list: seq<nat> := ["L", "a", "b", "c"], [1, 3];
    assert list[..1] == [1] && list[..1][..0] == [];
    assert RemoveAll(t, list[..1]) == ["L", "c", "b"];
    assert list[1] == 3 && !HoleOK(4, list, 0);
  }

}
