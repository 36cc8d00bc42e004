/** The finalizer list of an HTTPScaledObject, and the `remove` that edits it in place while
    its loop ranges over the slice it started from. */
module Finalizers {
  const HTTP_SCALED_OBJECT_FINALIZER := "httpscaledobject.http.keda.sh"

  // ---------- the loop on values ----------

  datatype Outcome = Panicked | Returned(list: seq<string>)

  /** The rest of the loop: `a` is the array under the original slice header, of which the
      variable `list` still spans the first `len` elements, and `i` is the loop's index. Slicing
      `list[i+1:]` past `len` panics. */
  function Sweep(a: seq<string>, len: nat, i: nat, s: string): Outcome
    requires len <= |a| && i <= |a|
    decreases |a| - i
  {
    if i == |a| then Returned(a[..len])
    else if a[i] != s then Sweep(a, len, i + 1, s)
    else if i + 1 > len then Panicked
    else Sweep(Shifted(a, i, len), len - 1, i + 1, s)
  }

  /** `append(list[:i], list[i+1:]...)` within the array: one element is overwritten and all
      behind it move up; what lies at or after the old end stays. */
  function Shifted(a: seq<string>, i: nat, len: nat): (b: seq<string>)
    requires i < len <= |a|
    ensures |b| == |a|
  {
    a[..i] + a[i + 1..len] + a[len - 1..]
  }

  function Removed(list: seq<string>, s: string): Outcome {
    Sweep(list, |list|, 0, s)
  }

  // ---------- what it is meant to do, and when it does ----------

  /** The list minus every `s`, in order. */
  function Without(list: seq<string>, s: string): seq<string> {
    if list == [] then [] else (if list[0] == s then [] else [list[0]]) + Without(list[1..], s)
  }

  predicate NoNeighbours(list: seq<string>, s: string) {
    forall i | 0 <= i < |list| - 1 :: !(list[i] == s && list[i + 1] == s)
  }

  /** `s` ends the list and also occurs before. */
  predicate RepeatsAtEnd(list: seq<string>, s: string) {
    list != [] && list[|list| - 1] == s && s in list[..|list| - 1]
  }

  /** What the loop leaves of the part it has not visited: after a hit it skips one element. */
  function Survivors(rest: seq<string>, s: string): seq<string> {
    if rest == [] then []
    else if rest[0] != s then [rest[0]] + Survivors(rest[1..], s)
    else if |rest| == 1 then []
    else [rest[1]] + Survivors(rest[2..], s)
  }

  lemma {:induction false} SurvivorsIffNoNeighbours(rest: seq<string>, s: string)
    ensures Survivors(rest, s) == Without(rest, s) <==> NoNeighbours(rest, s)
    decreases |rest|
  {
    if rest == [] {
    } else if rest[0] != s {
      SurvivorsIffNoNeighbours(rest[1..], s);
      ConsCancels(rest[0], Survivors(rest[1..], s), Without(rest[1..], s));
      NeighboursOfTail(rest, s);
    } else if |rest| >= 2 {
      if rest[1] == s {
        WithoutLacks(rest, s);
        assert Survivors(rest, s)[0] == s;
      } else {
        SurvivorsIffNoNeighbours(rest[2..], s);
        assert rest[1..][1..] == rest[2..];
        ConsCancels(rest[1], Survivors(rest[2..], s), Without(rest[2..], s));
        NeighboursOfTail(rest, s);
        NeighboursOfTail(rest[1..], s);
      }
    }
  }

  lemma {:induction false} SurvivorsHoldIffNeighbours(rest: seq<string>, s: string)
    ensures s in Survivors(rest, s) <==> !NoNeighbours(rest, s)
    decreases |rest|
  {
    if rest == [] {
    } else if rest[0] != s {
      SurvivorsHoldIffNeighbours(rest[1..], s);
      NeighboursOfTail(rest, s);
    } else if |rest| >= 2 {
      if rest[1] == s {
        assert Survivors(rest, s)[0] == s;
      } else {
        SurvivorsHoldIffNeighbours(rest[2..], s);
        assert rest[1..][1..] == rest[2..];
        NeighboursOfTail(rest, s);
        NeighboursOfTail(rest[1..], s);
      }
    }
  }

  lemma ConsCancels(x: string, a: seq<string>, b: seq<string>)
    ensures [x] + a == [x] + b <==> a == b
  {
    assert ([x] + a)[1..] == a && ([x] + b)[1..] == b;
  }

  lemma NeighboursOfTail(list: seq<string>, s: string)
    requires |list| >= 1
    ensures NoNeighbours(list, s) <==>
            NoNeighbours(list[1..], s) && !(|list| >= 2 && list[0] == s && list[1] == s)
  {
    if NoNeighbours(list[1..], s) && !(|list| >= 2 && list[0] == s && list[1] == s) {
      forall i | 0 <= i < |list| - 1 ensures !(list[i] == s && list[i + 1] == s) {
        if i > 0 {
          assert list[1..][i - 1] == list[i] && list[1..][i - 1 + 1] == list[i + 1];
        }
      }
    }
  }

  lemma {:induction false} WithoutLacks(list: seq<string>, s: string)
    ensures s !in Without(list, s)
  {
    if list != [] {
      WithoutLacks(list[1..], s);
    }
  }

  /** Where nothing but copies of other elements lies behind `len`, the loop never panics and
      leaves the survivors. */
  lemma {:induction false} SweepLeavesSurvivors(a: seq<string>, len: nat, i: nat, s: string)
    requires i <= len <= |a|
    requires forall j | len <= j < |a| :: a[j] != s
    requires i < len ==> a[len - 1] != s
    ensures Sweep(a, len, i, s) == Returned(a[..i] + Survivors(a[i..len], s))
    decreases |a| - i
  {
    if i == len {
      TailIsSkipped(a, len, i, s);
    } else if a[i] != s {
      SweepLeavesSurvivors(a, len, i + 1, s);
      SurvivorsUnfold(a, i, len, s);
    } else {
      ShiftedParts(a, i, len);
      SweepLeavesSurvivors(Shifted(a, i, len), len - 1, i + 1, s);
      SurvivorsUnfold(a, i, len, s);
    }
  }

  lemma SurvivorsUnfold(a: seq<string>, i: nat, len: nat, s: string)
    requires i < len <= |a| && a[len - 1] != s
    ensures a[i] != s ==> a[..i] + Survivors(a[i..len], s) == a[..i + 1] + Survivors(a[i + 1..len], s)
    ensures a[i] == s ==> i + 1 < len
                          && a[..i] + Survivors(a[i..len], s) == a[..i] + [a[i + 1]] + Survivors(a[i + 2..len], s)
  {
    if a[i] != s {
      assert a[i..len][1..] == a[i + 1..len];
      assert a[..i + 1] == a[..i] + [a[i]];
    } else {
      assert a[i..len][2..] == a[i + 2..len];
    }
  }

  /** After a hit with an element behind it: that element now lies at `i`, the rest follows, and
      all from `len - 1` on is as it was. */
  lemma ShiftedParts(a: seq<string>, i: nat, len: nat)
    requires i + 1 < len <= |a|
    ensures var b := Shifted(a, i, len);
            && b[..i + 1] == a[..i] + [a[i + 1]] && b[i + 1..len - 1] == a[i + 2..len]
            && b[len - 2] == a[len - 1] && forall j | len - 1 <= j < |a| :: b[j] == a[j]
  {
  }

  lemma {:induction false} TailIsSkipped(a: seq<string>, len: nat, i: nat, s: string)
    requires len <= i <= |a| && forall j | i <= j < |a| :: a[j] != s
    ensures Sweep(a, len, i, s) == Returned(a[..len])
    decreases |a| - i
  {
    if i < |a| {
      TailIsSkipped(a, len, i + 1, s);
    }
  }

  /** Once an element is gone, a last element equal to `s` is never overwritten, and reaching it
      panics. */
  lemma {:induction false} StaleEndPanics(a: seq<string>, len: nat, i: nat, s: string)
    requires len < |a| && i < |a| && a[|a| - 1] == s
    ensures Sweep(a, len, i, s) == Panicked
    decreases |a| - i
  {
    if a[i] != s {
      StaleEndPanics(a, len, i + 1, s);
    } else if i + 1 <= len {
      StaleEndPanics(Shifted(a, i, len), len - 1, i + 1, s);
    }
  }

  lemma {:induction false} SweepToFirst(a: seq<string>, i: nat, s: string)
    requires i < |a| && RepeatsAtEnd(a, s) && s !in a[..i]
    ensures Sweep(a, |a|, i, s) == Panicked
    decreases |a| - i
  {
    if a[i] == s {
      assert i != |a| - 1;
      assert Shifted(a, i, |a|)[|a| - 1] == a[|a| - 1];
      StaleEndPanics(Shifted(a, i, |a|), |a| - 1, i + 1, s);
    } else {
      assert a[..i + 1] == a[..i] + [a[i]];
      SweepToFirst(a, i + 1, s);
    }
  }

  lemma {:induction false} SweepOnlyLast(a: seq<string>, i: nat, s: string)
    requires i < |a| && a[|a| - 1] == s && s !in a[..|a| - 1]
    ensures Sweep(a, |a|, i, s) == Returned(a[..|a| - 1])
    decreases |a| - i
  {
    var n := |a| - 1;
    if i < n {
      assert a[..n][i] == a[i];
      SweepOnlyLast(a, i + 1, s);
    } else {
      assert Shifted(a, n, |a|)[..n] == a[..n];
    }
  }

  lemma {:induction false} WithoutAbsent(list: seq<string>, s: string)
    requires s !in list
    ensures Without(list, s) == list
  {
    if list != [] {
      WithoutAbsent(list[1..], s);
      assert list == [list[0]] + list[1..];
    }
  }

  lemma {:induction false} WithoutLast(list: seq<string>, s: string)
    ensures Without(list + [s], s) == Without(list, s)
  {
    if list != [] {
      WithoutLast(list[1..], s);
      assert (list + [s])[1..] == list[1..] + [s];
    }
  }

  lemma RemoveOfOnlyLast(list: seq<string>, s: string)
    requires list != [] && list[|list| - 1] == s && s !in list[..|list| - 1]
    ensures Removed(list, s) == Returned(Without(list, s)) && NoNeighbours(list, s)
  {
    var front := list[..|list| - 1];
    SweepOnlyLast(list, 0, s);
    WithoutLast(front, s);
    WithoutAbsent(front, s);
    assert list == front + [s];
    forall i | 0 <= i < |list| - 1 ensures list[i] != s {
      assert list[i] == front[i];
    }
  }

  lemma RemoveOfOthers(list: seq<string>, s: string)
    requires list == [] || list[|list| - 1] != s
    ensures Removed(list, s) == Returned(Survivors(list, s))
  {
    SweepLeavesSurvivors(list, |list|, 0, s);
    assert list[0..|list|] == list && list[..0] + Survivors(list, s) == Survivors(list, s);
  }

  /** `remove` panics exactly on a list that ends with `s` and holds it before as well; otherwise
      it returns, and returns the list minus `s` exactly when no two `s` are neighbours. */
  lemma RemoveCharacterised(list: seq<string>, s: string)
    ensures Removed(list, s) == Panicked <==> RepeatsAtEnd(list, s)
    ensures Removed(list, s) == Returned(Without(list, s)) <==> NoNeighbours(list, s) && !RepeatsAtEnd(list, s)
  {
    if RepeatsAtEnd(list, s) {
      SweepToFirst(list, 0, s);
    } else if list != [] && list[|list| - 1] == s {
      RemoveOfOnlyLast(list, s);
    } else {
      RemoveOfOthers(list, s);
      SurvivorsIffNoNeighbours(list, s);
    }
  }

  /** And a list that it returns still holds `s` exactly when two `s` were neighbours. */
  lemma RemoveClearsIff(list: seq<string>, s: string)
    ensures (Removed(list, s).Returned? && s !in Removed(list, s).list) <==>
            NoNeighbours(list, s) && !RepeatsAtEnd(list, s)
  {
    RemoveCharacterised(list, s);
    WithoutLacks(list, s);
    if !RepeatsAtEnd(list, s) && !(list != [] && list[|list| - 1] == s) {
      RemoveOfOthers(list, s);
      SurvivorsHoldIffNeighbours(list, s);
    } else if !RepeatsAtEnd(list, s) {
      RemoveOfOnlyLast(list, s);
    }
  }

  ghost predicate AtMostOnce(list: seq<string>, s: string) {
    forall i, j | 0 <= i < j < |list| :: !(list[i] == s && list[j] == s)
  }

  /** In particular it does its work whenever `s` occurs at most once. */
  lemma RemoveOfSingle(list: seq<string>, s: string)
    requires AtMostOnce(list, s)
    ensures Removed(list, s) == Returned(Without(list, s))
  {
    RemoveCharacterised(list, s);
    assert forall i | 0 <= i < |list| - 1 :: !(list[i] == s && list[|list| - 1] == s);
  }

  // ---------- the loop in place ----------

  /** A slice: the first `len` elements of its backing array. */
  datatype Slice = Slice(backing: array<string>, len: nat)

  /** `remove`, on the backing array. */
  method RemoveInPlace(list: Slice, s: string) returns (panicked: bool, left: nat)
    requires list.len <= list.backing.Length
    modifies list.backing
    ensures left <= list.len
    ensures panicked <==> Removed(old(list.backing[..list.len]), s) == Panicked
    ensures !panicked ==> Returned(list.backing[..left]) == Removed(old(list.backing[..list.len]), s)
    ensures list.backing[list.len..] == old(list.backing[list.len..])
  {
    var a, n := list.backing, list.len;
    panicked, left := false, n;
    ghost var start := a[..n];
    for i := 0 to n
      invariant left <= n && !panicked
      invariant Sweep(a[..n], left, i, s) == Removed(start, s)
      invariant a[n..] == old(a[n..])
    {
      if a[i] == s {
        if i + 1 > left {
          panicked := true;
          return;
        }
        ShiftUp(a, i, left, n);
        left := left - 1;
      }
    }
    assert a[..n][..left] == a[..left];
  }

  /** The copy that `append` makes: elements `i + 1 .. len` move one place up. */
  method ShiftUp(a: array<string>, i: nat, len: nat, n: nat)
    requires i < len <= n <= a.Length
    modifies a
    ensures a[..n] == Shifted(old(a[..n]), i, len)
    ensures a[n..] == old(a[n..])
  {
    for k := i to len - 1
      invariant forall j | 0 <= j < a.Length :: a[j] == old(a[if i <= j < k then j + 1 else j])
    {
      a[k] := a[k + 1];
    }
    forall j | 0 <= j < n ensures a[j] == Shifted(old(a[..n]), i, len)[j] {
      ShiftedAt(old(a[..n]), i, len, j);
    }
  }

  lemma ShiftedAt(a: seq<string>, i: nat, len: nat, j: nat)
    requires i < len <= |a| && j < |a|
    ensures Shifted(a, i, len)[j] == a[if i <= j < len - 1 then j + 1 else j]
  {
  }

  method Contains(list: seq<string>, s: string) returns (found: bool)
    ensures found <==> s in list
  {
    for i := 0 to |list|
      invariant forall j | 0 <= j < i :: list[j] != s
    {
      if list[i] == s {
        return true;
      }
    }
    return false;
  }

  // ---------- adding and removing the finalizer ----------

  /** The list that `ensureFinalizer` writes back. */
  function Ensured(list: seq<string>): seq<string> {
    if HTTP_SCALED_OBJECT_FINALIZER in list then list else list + [HTTP_SCALED_OBJECT_FINALIZER]
  }

  /** The list that `finalizeScaledObject` writes back. */
  function Finalized(list: seq<string>): Outcome {
    if HTTP_SCALED_OBJECT_FINALIZER in list then Removed(list, HTTP_SCALED_OBJECT_FINALIZER) else Returned(list)
  }

  /** Ensuring keeps the finalizer at most once, and finalizing afterwards never panics: it
      restores a list that lacked the finalizer, and takes it out of one that had it. */
  lemma EnsureThenFinalize(list: seq<string>)
    requires AtMostOnce(list, HTTP_SCALED_OBJECT_FINALIZER)
    ensures AtMostOnce(Ensured(list), HTTP_SCALED_OBJECT_FINALIZER)
    ensures Finalized(Ensured(list)) == Returned(Without(list, HTTP_SCALED_OBJECT_FINALIZER))
    ensures HTTP_SCALED_OBJECT_FINALIZER !in list ==> Finalized(Ensured(list)) == Returned(list)
  {
    var f := HTTP_SCALED_OBJECT_FINALIZER;
    RemoveOfSingle(Ensured(list), f);
    if f !in list {
      WithoutLast(list, f);
      WithoutAbsent(list, f);
    }
  }
}
