/** The assistant's conversation memory, bounded by a rough token estimate. */
module Memory {
  import opened Bytes

  datatype Entry = Entry(role: string, content: seq<byte>)

  datatype Operation = Push(entry: Entry) | Clear

  /** One token for every four bytes of each entry, rounded down entry by entry. */
  function Estimate(es: seq<Entry>): nat {
    if es == [] then 0 else |es[0].content| / 4 + Estimate(es[1..])
  }

  function TotalBytes(es: seq<Entry>): nat {
    if es == [] then 0 else TotalBytes(es[..|es| - 1]) + |es[|es| - 1].content|
  }

  /** The estimate is a quarter of the bytes, short by less than one token for each entry. */
  lemma {:induction false} EstimateIsClose(es: seq<Entry>)
    ensures 4 * Estimate(es) <= TotalBytes(es) <= 4 * Estimate(es) + 3 * |es|
  {
    if es != [] {
      var k := |es| - 1;
      EstimateIsClose(es[..k]);
      EstimateAppends(es[..k], es[k]);
      assert es[..k] + [es[k]] == es;
    }
  }

  /** What was pushed after the last clear. */
  function SinceClear(ops: seq<Operation>): seq<Entry> {
    if ops == [] then []
    else
      match ops[|ops| - 1]
      case Push(e) => SinceClear(ops[..|ops| - 1]) + [e]
      case Clear => []
  }

  /** `b` is the longest suffix of `h` whose estimate is within the bound. */
  ghost predicate IsLongestFitting(b: seq<Entry>, h: seq<Entry>, bound: nat) {
    && |b| <= |h| && b == h[|h| - |b|..]
    && forall k | 0 <= k <= |h| :: Estimate(h[k..]) <= bound <==> k >= |h| - |b|
  }

  lemma {:induction false} EstimateAppends(a: seq<Entry>, e: Entry)
    ensures Estimate(a + [e]) == Estimate(a) + |e.content| / 4
  {
    if a == [] {
      assert a + [e] == [e];
    } else {
      assert (a + [e])[1..] == a[1..] + [e];
      EstimateAppends(a[1..], e);
    }
  }

  /** Only one suffix is the longest that fits. */
  lemma LongestIsUnique(b: seq<Entry>, c: seq<Entry>, h: seq<Entry>, bound: nat)
    requires IsLongestFitting(b, h, bound) && IsLongestFitting(c, h, bound)
    ensures b == c
  {
    assert Estimate(h[|h| - |b|..]) <= bound && Estimate(h[|h| - |c|..]) <= bound;
  }

  ghost predicate NoneFitsBefore(h: seq<Entry>, n: nat, bound: nat) {
    forall k | 0 <= k < n && k <= |h| :: Estimate(h[k..]) > bound
  }

  /** What was evicted earlier can never fit again: after a push, only suffixes of the buffer need trying. */
  lemma EvictedStaysOut(b: seq<Entry>, h: seq<Entry>, e: Entry, bound: nat)
    requires IsLongestFitting(b, h, bound)
    ensures |b| <= |h| && NoneFitsBefore(h + [e], |h| - |b|, bound)
    ensures b + [e] == (h + [e])[|h| - |b|..]
  {
    forall k | 0 <= k < |h| - |b| ensures Estimate((h + [e])[k..]) > bound {
      assert (h + [e])[k..] == h[k..] + [e];
      EstimateAppends(h[k..], e);
    }
  }

  lemma EvictOne(h: seq<Entry>, n: nat, bound: nat)
    requires n < |h| && NoneFitsBefore(h, n, bound) && Estimate(h[n..]) > bound
    ensures NoneFitsBefore(h, n + 1, bound) && h[n..][1..] == h[n + 1..]
  {}

  /** Once a suffix fits, so does every shorter one. */
  lemma {:induction false} ShorterFits(h: seq<Entry>, i: nat, k: nat)
    requires i <= k <= |h|
    ensures Estimate(h[k..]) <= Estimate(h[i..])
    decreases k - i
  {
    if i < k {
      ShorterFits(h, i + 1, k);
      assert h[i..][1..] == h[i + 1..];
    }
  }

  lemma EvictionEnds(h: seq<Entry>, n: nat, bound: nat)
    requires n <= |h| && NoneFitsBefore(h, n, bound)
    requires Estimate(h[n..]) <= bound || h[n..] == []
    ensures IsLongestFitting(h[n..], h, bound)
  {
    forall k | n <= k <= |h| ensures Estimate(h[k..]) <= bound {
      ShorterFits(h, n, k);
    }
  }

  class MemoryProvider {
    var shortTermBuffer: seq<Entry>
    const maxTokens: nat
    ghost var pushed: seq<Entry>  // everything pushed since the last clear

    ghost predicate Valid()
      reads this
    {
      IsLongestFitting(shortTermBuffer, pushed, maxTokens)
    }

    constructor (maxTokens: nat)
      ensures Valid() && this.maxTokens == maxTokens && pushed == []
    {
      this.maxTokens := maxTokens;
      shortTermBuffer, pushed := [], [];
    }

    method PushEntry(entry: Entry)
      requires Valid()
      modifies this
      ensures Valid() && pushed == old(pushed) + [entry]
    {
      hide Estimate, NoneFitsBefore, IsLongestFitting;
      EvictedStaysOut(shortTermBuffer, pushed, entry, maxTokens);
      ghost var dropped := |pushed| - |shortTermBuffer|;
      pushed := pushed + [entry];
      shortTermBuffer := shortTermBuffer + [entry];
      while Estimate(shortTermBuffer) > maxTokens && shortTermBuffer != []
        invariant 0 <= dropped <= |pushed| && shortTermBuffer == pushed[dropped..]
        invariant pushed == old(pushed) + [entry] && NoneFitsBefore(pushed, dropped, maxTokens)
        decreases |shortTermBuffer|
      {
        EvictOne(pushed, dropped, maxTokens);
        shortTermBuffer := shortTermBuffer[1..];
        dropped := dropped + 1;
      }
      EvictionEnds(pushed, dropped, maxTokens);
    }

    method GetContext() returns (context: seq<Entry>)
      requires Valid()
      ensures IsLongestFitting(context, pushed, maxTokens)
    {
      context := shortTermBuffer;
    }

    method ClearAll()
      requires Valid()
      modifies this
      ensures Valid() && pushed == [] && shortTermBuffer == []
    {
      shortTermBuffer, pushed := [], [];
    }

    /** After any run from a fresh provider the buffer is the longest fitting suffix of the pushes since the clear. */
    method Run(ops: seq<Operation>)
      requires Valid() && pushed == []
      modifies this
      ensures Valid() && IsLongestFitting(shortTermBuffer, SinceClear(ops), maxTokens)
    {
      hide Estimate, IsLongestFitting;
      var i := 0;
      while i < |ops|
        invariant i <= |ops| && Valid() && pushed == SinceClear(ops[..i])
      {
        assert ops[..i + 1][..i] == ops[..i];
        match ops[i] {
          case Push(e) => PushEntry(e);
          case Clear => ClearAll();
        }
        i := i + 1;
      }
      assert ops[..i] == ops;
    }
  }
}
