/** The allocator of diagnostic kinds for plugins: a counter that starts at
    the first plugin kind and is pre-incremented on every request. The
    counter is a 32-bit `int`; its atomic increment wraps around in two's
    complement. Calls are modelled one after another, threading the
    counter's value through. */
module KindRegistry {
  import opened Widths

  /** The counter's current value: the kind most recently handed out, or the
      first plugin kind itself before any request. */
  datatype Registry = Registry(last: int32)

  /** The counter as first initialised, from the value of DK_FirstPluginKind. */
  function Init(firstPluginKind: int32): (s: Registry)
    ensures s.last == firstPluginKind
  {
    Registry(firstPluginKind)
  }

  /** 32-bit two's-complement successor. */
  function Succ(x: int32): int32 {
    if x == INT32_MAX then INT32_MIN else x + 1
  }

  /** getNextAvailablePluginDiagnosticKind: the kind returned and the counter afterwards. */
  function Allocate(s: Registry): (r: (int32, Registry))
    ensures r.1.last == r.0
    ensures s.last < INT32_MAX ==> r.0 == s.last + 1
  {
    var k := Succ(s.last);
    (k, Registry(k))
  }

  /** `n` successive requests: the kinds returned, in order, and the final counter. */
  function AllocateMany(s: Registry, n: nat): (r: (seq<int32>, Registry))
    ensures |r.0| == n
    decreases n
  {
    if n == 0 then ([], s)
    else
      var (k, s1) := Allocate(s);
      var (ks, s2) := AllocateMany(s1, n - 1);
      ([k] + ks, s2)
  }

  /** While the counter does not pass INT32_MAX, the i-th request returns the
      starting value plus i + 1. */
  lemma {:induction false} AllocateManyCounts(s: Registry, n: nat)
    requires s.last as int + n <= INT32_MAX
    ensures forall i | 0 <= i < n :: AllocateMany(s, n).0[i] == s.last + i + 1
    ensures AllocateMany(s, n).1.last == s.last + n
    decreases n
  {
    if n > 0 {
      var (k, s1) := Allocate(s);
      AllocateManyCounts(s1, n - 1);
      var ks := AllocateMany(s1, n - 1).0;
      assert AllocateMany(s, n).0 == [k] + ks;
    }
  }

  /** Kinds handed out from the initial counter: the first is
      DK_FirstPluginKind + 1, every one exceeds DK_FirstPluginKind, and each
      exceeds every earlier one (so no two coincide), as long as fewer than
      INT32_MAX - DK_FirstPluginKind + 1 requests are made. */
  lemma PluginKindsFresh(firstPluginKind: int32, n: nat)
    requires firstPluginKind as int + n <= INT32_MAX
    ensures var ks := AllocateMany(Init(firstPluginKind), n).0;
      && (n > 0 ==> ks[0] == firstPluginKind + 1)
      && (forall i | 0 <= i < n :: ks[i] > firstPluginKind)
      && (forall i, j | 0 <= i < j < n :: ks[i] < ks[j])
  {
    AllocateManyCounts(Init(firstPluginKind), n);
  }

  /** The bound in PluginKindsFresh is needed: the request after the counter
      reaches INT32_MAX returns INT32_MIN, which is not above the first
      plugin kind. */
  lemma CounterWrapsAtLimit(firstPluginKind: int32)
    ensures var n := INT32_MAX - firstPluginKind + 1;
      && AllocateMany(Init(firstPluginKind), n).0[n - 1] == INT32_MIN
      && INT32_MIN <= firstPluginKind
  {
    var n := INT32_MAX - firstPluginKind + 1;
    AllocateManyStep(Init(firstPluginKind), n - 1);
    AllocateManyCounts(Init(firstPluginKind), n - 1);
  }

  /** One more request extends the sequence of kinds by the next kind. */
  lemma {:induction false} AllocateManyStep(s: Registry, n: nat)
    ensures AllocateMany(s, n + 1).0 == AllocateMany(s, n).0 + [Allocate(AllocateMany(s, n).1).0]
    ensures AllocateMany(s, n + 1).1 == Allocate(AllocateMany(s, n).1).1
    decreases n
  {
    if n > 0 {
      var (k, s1) := Allocate(s);
      AllocateManyStep(s1, n - 1);
      assert AllocateMany(s, n + 1).0 == [k] + AllocateMany(s1, n).0;
    }
  }
}
