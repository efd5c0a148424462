/** Small shared vocabulary: optional values and the page count of a batched scan. */
module Common {
  datatype Option<+T> = None | Some(value: T)

  /** The three aggregations of a workflow run. */
  datatype Scope = PerMode | Overall | Matchup

  const JOB_BATCH: nat := 8
  const MAX_JOB_BATCH: nat := 50

  /** `clampBatch`: a size that is not positive falls back, a large one is cut. */
  function ClampBatch(requested: int, fallback: nat, most: nat): (b: nat)
    requires 0 < fallback <= most
    ensures 1 <= b <= most
    ensures requested <= 0 ==> b == fallback
    ensures requested > 0 ==> b == Min(requested, most)
  {
    if requested <= 0 then fallback else Min(requested, most)
  }

  function Min(a: nat, b: nat): nat {
    if a <= b then a else b
  }

  /** `Math.min(Math.max(1, requested ?? fallback), most)`. */
  function Clamp(requested: Option<int>, fallback: int, most: nat): (n: nat)
    requires most > 0
    ensures 1 <= n <= most
    ensures requested.Some? && 1 <= requested.value <= most ==> n == requested.value
    ensures requested.Some? && requested.value < 1 ==> n == 1
    ensures requested.Some? && requested.value > most ==> n == most
    ensures requested.None? && 1 <= fallback <= most ==> n == fallback
  {
    var n := if requested.None? then fallback else requested.value;
    if n < 1 then 1 else if n > most then most else n
  }

  /** Number of non-empty pages of size `b` needed for `n` items. */
  function Ceil(n: nat, b: nat): nat
    requires b > 0
  {
    if n == 0 then 0 else 1 + Ceil(n - Min(b, n), b)
  }

  /** Ceil is the ceiling of n / b: that many pages suffice and one fewer does not. */
  lemma {:induction false} CeilIsCeiling(n: nat, b: nat)
    requires b > 0
    ensures n <= Ceil(n, b) * b
    ensures n > 0 ==> (Ceil(n, b) - 1) * b < n
  {
    if n > 0 {
      var rest := n - Min(b, n);
      CeilIsCeiling(rest, b);
      assert Ceil(n, b) * b == Ceil(rest, b) * b + b;
      if rest > 0 {
        assert (Ceil(n, b) - 1) * b == (Ceil(rest, b) - 1) * b + b;
      }
    }
  }

  // ------------------------------------------------- what a filter picks out

  /** `at` lists, in order and once each, the positions of `s` that pass. */
  ghost predicate Picked<T>(s: seq<T>, pass: T -> bool, at: seq<nat>) {
    && (forall i :: 0 <= i < |at| ==> at[i] < |s| && pass(s[at[i]]))
    && (forall i, j :: 0 <= i < j < |at| ==> at[i] < at[j])
    && (forall j {:trigger j in at} :: 0 <= j < |s| && pass(s[j]) ==> j in at)
  }

  /** The positions kept of a list, from those of its tail. */
  function Onward(head: bool, rest: seq<nat>): (at: seq<nat>)
    ensures var n := if head then 1 else 0;
      && |at| == |rest| + n
      && (head ==> at[0] == 0)
      && forall i :: n <= i < |at| ==> at[i] == rest[i - n] + 1
  {
    (if head then [0] else []) + seq(|rest|, i requires 0 <= i < |rest| => rest[i] + 1)
  }

  lemma NothingPicked<T>(s: seq<T>, pass: T -> bool)
    requires s == []
    ensures Picked(s, pass, [])
  {
  }

  lemma OnwardPicks<T>(s: seq<T>, rest: seq<nat>, head: bool)
    requires s != [] && forall i :: 0 <= i < |rest| ==> rest[i] < |s| - 1
    ensures var at, n := Onward(head, rest), if head then 1 else 0;
      forall i :: n <= i < |at| ==> at[i] < |s| && s[at[i]] == s[1..][rest[i - n]]
  {
  }

  lemma PickedOnward<T>(s: seq<T>, pass: T -> bool, rest: seq<nat>)
    requires s != [] && Picked(s[1..], pass, rest)
    ensures var at, n := Onward(pass(s[0]), rest), if pass(s[0]) then 1 else 0;
      && Picked(s, pass, at)
      && forall i :: n <= i < |at| ==> at[i] < |s| && rest[i - n] < |s| - 1 && s[at[i]] == s[1..][rest[i - n]]
  {
    var at, n := Onward(pass(s[0]), rest), if pass(s[0]) then 1 else 0;
    OnwardPicks(s, rest, pass(s[0]));
    hide Onward;
    var t := s[1..];
    forall i | 0 <= i < |at|
      ensures at[i] < |s| && pass(s[at[i]])
    {
      if i >= n {
        assert pass(t[rest[i - n]]);
      }
    }
    forall i, j | 0 <= i < j < |at|
      ensures at[i] < at[j]
    {
      if i >= n {
        assert rest[i - n] < rest[j - n];
      }
    }
    forall j | 0 <= j < |s| && pass(s[j])
      ensures j in at
    {
      if j > 0 {
        assert t[j - 1] == s[j] && j - 1 in rest;
        var i :| 0 <= i < |rest| && rest[i] == j - 1;
        assert at[i + n] == j;
      }
    }
  }
}
