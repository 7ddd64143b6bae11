/** The privilege predicate and the in-place Fisher–Yates shuffle
    (src/domain/helpers.ts). */
module Helpers {
  import opened Util

  /** The loopback literals that, besides the server's own host, mark a
      connection as privileged. */
  const LoopbackAddresses: set<string> := {"127.0.0.1", "::1", "localhost"}

  /** A peer is privileged iff its address is known and is the server's own
      host or one of the loopback literals. */
  function IsLocalhost(remoteAddress: Option<string>, host: string): (r: bool)
    ensures remoteAddress.None? ==> !r
    ensures r <==> remoteAddress.Some? && remoteAddress.value in LoopbackAddresses + {host}
  {
    remoteAddress.Some? &&
    (remoteAddress.value == host || remoteAddress.value == "127.0.0.1" ||
     remoteAddress.value == "::1" || remoteAddress.value == "localhost")
  }

  /** The sequence `s` with positions `i` and `j` exchanged. */
  function Swap<T>(s: seq<T>, i: nat, j: nat): (r: seq<T>)
    requires i < |s| && j < |s|
    ensures |r| == |s|
    ensures r[i] == s[j] && r[j] == s[i]
    ensures forall k :: 0 <= k < |s| && k != i && k != j ==> r[k] == s[k]
  {
    s[i := s[j]][j := s[i]]
  }

  /** Every position a swap schedule names lies inside a sequence of length `n`. */
  predicate InBounds(swaps: seq<(nat, nat)>, n: nat) {
    forall k :: 0 <= k < |swaps| ==> swaps[k].0 < n && swaps[k].1 < n
  }

  /** The swaps in the order they are performed. */
  function ApplySwaps<T>(s: seq<T>, swaps: seq<(nat, nat)>): (r: seq<T>)
    requires InBounds(swaps, |s|)
    ensures |r| == |s|
    decreases |swaps|
  {
    if swaps == [] then s
    else Swap(ApplySwaps(s, swaps[..|swaps| - 1]), swaps[|swaps| - 1].0, swaps[|swaps| - 1].1)
  }

  /** Any sequence of in-bounds swaps rearranges the elements without losing
      or duplicating any: the result is a permutation of the input. */
  lemma {:induction false} ApplySwapsPermutes<T>(s: seq<T>, swaps: seq<(nat, nat)>)
    requires InBounds(swaps, |s|)
    ensures multiset(ApplySwaps(s, swaps)) == multiset(s)
    decreases |swaps|
  {
    if swaps != [] {
      var prev := ApplySwaps(s, swaps[..|swaps| - 1]);
      ApplySwapsPermutes(s, swaps[..|swaps| - 1]);
      SwapPermutes(prev, swaps[|swaps| - 1].0, swaps[|swaps| - 1].1);
    }
  }

  lemma SwapPermutes<T>(s: seq<T>, i: nat, j: nat)
    requires i < |s| && j < |s|
    ensures multiset(Swap(s, i, j)) == multiset(s)
  {
    var t := s[i := s[j]];
    assert multiset(t) == multiset(s) - multiset{s[i]} + multiset{s[j]};
    assert multiset(t[j := s[i]]) == multiset(t) - multiset{t[j]} + multiset{s[i]};
  }

  /** The swaps Fisher–Yates performs on a sequence of length `n`: the k-th one
      exchanges position `n-1-k` with a partner at or below it, so the upper
      index runs from `n-1` down to `1`. */
  predicate IsFisherYatesSchedule(swaps: seq<(nat, nat)>, n: nat) {
    |swaps| == (if n == 0 then 0 else n - 1) && IsSchedulePrefix(swaps, n)
  }

  /** The first `|swaps|` steps of a Fisher–Yates schedule for length `n`. */
  predicate IsSchedulePrefix(swaps: seq<(nat, nat)>, n: nat) {
    forall k :: 0 <= k < |swaps| ==> swaps[k].0 == n - 1 - k && swaps[k].1 <= swaps[k].0
  }

  lemma SchedulePrefixInBounds(swaps: seq<(nat, nat)>, n: nat)
    requires IsSchedulePrefix(swaps, n)
    ensures InBounds(swaps, n)
  {
  }

  lemma SchedulePrefixExtend(swaps: seq<(nat, nat)>, n: nat, i: nat, j: nat)
    requires IsSchedulePrefix(swaps, n) && i == n - 1 - |swaps| && j <= i
    ensures IsSchedulePrefix(swaps + [(i, j)], n)
  {
  }

  /** `shuffleArray`: shuffles the array in place and returns that same array.
      The random partner `Math.floor(Math.random() * (i + 1))` is an arbitrary
      choice in `[0, i]`; the ghost result reports the swaps performed. */
  method ShuffleArray<T>(arr: array<T>) returns (r: array<T>, ghost swaps: seq<(nat, nat)>)
    modifies arr
    ensures r == arr
    ensures IsFisherYatesSchedule(swaps, arr.Length)
    ensures InBounds(swaps, arr.Length) && arr[..] == ApplySwaps(old(arr[..]), swaps)
    ensures multiset(arr[..]) == multiset(old(arr[..]))
    ensures arr.Length <= 1 ==> arr[..] == old(arr[..])
  {
    ghost var original := arr[..];
    swaps := [];
    var i := arr.Length - 1;
    while i > 0
      invariant arr.Length == 0 ==> i == -1
      invariant arr.Length > 0 ==> 0 <= i < arr.Length
      invariant |swaps| == arr.Length - 1 - i
      invariant IsSchedulePrefix(swaps, arr.Length) && InBounds(swaps, arr.Length)
      invariant arr[..] == ApplySwaps(original, swaps)
      decreases i
    {
      var j :| 0 <= j <= i;
      ghost var before := arr[..];
      arr[i], arr[j] := arr[j], arr[i];
      assert arr[..] == Swap(before, i, j);
      ghost var done := swaps;
      SchedulePrefixExtend(done, arr.Length, i, j);
      swaps := done + [(i, j)];
      SchedulePrefixInBounds(swaps, arr.Length);
      assert swaps[..|swaps| - 1] == done;
      i := i - 1;
    }
    r := arr;
    ApplySwapsPermutes(original, swaps);
  }

  /** `shuffleArray` applied to a fresh array of the elements of `s`
      (`Array.from` then the in-place shuffle), read back as a sequence. */
  method Shuffled<T>(s: seq<T>) returns (r: seq<T>, ghost swaps: seq<(nat, nat)>)
    ensures IsFisherYatesSchedule(swaps, |s|)
    ensures InBounds(swaps, |s|) && r == ApplySwaps(s, swaps)
    ensures |r| == |s| && multiset(r) == multiset(s)
  {
    var a := new T[|s|](k requires 0 <= k < |s| => s[k]);
    assert a[..] == s;
    var shuffled;
    shuffled, swaps := ShuffleArray(a);
    r := shuffled[..];
  }
}
