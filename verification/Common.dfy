/** Failure-carrying results, machine-integer bounds and bags shared by every component. */
module Prelude {

  datatype Option<+T> = None | Some(value: T)

  datatype Result<+T, +E> = Ok(value: T) | Err(error: E)

  const U32_MAX: nat := 0xffff_ffff
  const U64_MAX: nat := 0xffff_ffff_ffff_ffff

  type Byte = b: int | 0 <= b < 256

  /** The first empty place of a fixed table. */
  function FirstNone<T>(s: seq<Option<T>>): (r: Option<nat>)
    ensures r.Some? ==> r.value < |s| && s[r.value].None? && forall k :: 0 <= k < r.value ==> s[k].Some?
    ensures r.None? ==> forall k :: 0 <= k < |s| ==> s[k].Some?
  {
    if s == [] then None
    else if s[0].None? then Some(0)
    else
      assert forall k :: 0 < k < |s| ==> s[k] == s[1..][k - 1];
      match FirstNone(s[1..])
      case None => None
      case Some(i) => Some(i + 1)
  }
}

/** Weighted counts over sequences: the ledgers that reference counts,
    live-page counts and free lists are compared with. */
module Counts {

  function Total<T>(w: T -> nat, s: seq<T>): nat {
    if s == [] then 0 else w(s[0]) + Total(w, s[1..])
  }

  lemma {:induction false} TotalUpdate<T>(w: T -> nat, s: seq<T>, i: nat, x: T)
    requires i < |s|
    ensures w(s[i]) <= Total(w, s)
    ensures Total(w, s[i := x]) == Total(w, s) - w(s[i]) + w(x)
  {
    if i == 0 {
      assert s[i := x][1..] == s[1..];
    } else {
      TotalUpdate(w, s[1..], i - 1, x);
      assert s[i := x][1..] == s[1..][i - 1 := x];
    }
  }

  lemma {:induction false} TotalPositive<T>(w: T -> nat, s: seq<T>)
    ensures Total(w, s) > 0 <==> exists i :: 0 <= i < |s| && w(s[i]) > 0
  {
    if s != [] {
      TotalPositive(w, s[1..]);
      if Total(w, s) > 0 && w(s[0]) == 0 {
        var i :| 0 <= i < |s[1..]| && w(s[1..][i]) > 0;
        assert w(s[i + 1]) > 0;
      }
      if i :| 0 <= i < |s| && w(s[i]) > 0 {
        assert i > 0 ==> w(s[1..][i - 1]) > 0;
      }
    }
  }

  lemma {:induction false} TotalAppend<T>(w: T -> nat, s: seq<T>, t: seq<T>)
    ensures Total(w, s + t) == Total(w, s) + Total(w, t)
  {
    if s == [] {
      assert s + t == t;
    } else {
      TotalAppend(w, s[1..], t);
      assert (s + t)[1..] == s[1..] + t;
    }
  }

  lemma TotalTake<T>(w: T -> nat, s: seq<T>, n: nat)
    requires 0 < n <= |s|
    ensures Total(w, s[..n]) == Total(w, s[..n - 1]) + w(s[n - 1])
  {
    assert s[..n] == s[..n - 1] + [s[n - 1]];
    TotalAppend(w, s[..n - 1], [s[n - 1]]);
  }

  /** Two different positions contribute independently. */
  lemma {:induction false} TotalTwo<T>(w: T -> nat, s: seq<T>, i: nat, j: nat)
    requires i < |s| && j < |s| && i != j
    ensures w(s[i]) + w(s[j]) <= Total(w, s)
  {
    if i == 0 {
      TotalUpdate(w, s[1..], j - 1, s[j]);
    } else if j == 0 {
      TotalUpdate(w, s[1..], i - 1, s[i]);
    } else {
      TotalTwo(w, s[1..], i - 1, j - 1);
    }
  }

  lemma {:induction false} TotalZero<T>(w: T -> nat, s: seq<T>)
    requires forall i :: 0 <= i < |s| ==> w(s[i]) == 0
    ensures Total(w, s) == 0
  {
    if s != [] {
      TotalZero(w, s[1..]);
    }
  }

  lemma {:induction false} TotalSame<T>(w: T -> nat, s: seq<T>, s': seq<T>)
    requires |s| == |s'| && forall i :: 0 <= i < |s| ==> w(s[i]) == w(s'[i])
    ensures Total(w, s) == Total(w, s')
  {
    if s != [] {
      TotalSame(w, s[1..], s'[1..]);
    }
  }
}
