/** The packets-per-second window (src/core/pps_window.cpp): a circular buffer that
    refines "the last `size` values pushed". */
module PpsWindow {
  import opened Words

  /** The last `n` values of `s`, or all of them when there are fewer. */
  ghost function LastN<T>(s: seq<T>, n: nat): seq<T> {
    if |s| <= n then s else s[|s| - n..]
  }

  function Sum(s: seq<u64>): nat {
    if |s| == 0 then 0 else s[0] + Sum(s[1..])
  }

  lemma {:induction false} SumOfConcat(a: seq<u64>, b: seq<u64>)
    ensures Sum(a + b) == Sum(a) + Sum(b)
  {
    if |a| == 0 {
      assert a + b == b;
    } else {
      SumOfConcat(a[1..], b);
      assert (a + b)[1..] == a[1..] + b;
    }
  }

  lemma SumOfRotation(a: seq<u64>, k: nat)
    requires k <= |a|
    ensures Sum(a[k..] + a[..k]) == Sum(a)
  {
    SumOfConcat(a[k..], a[..k]);
    SumOfConcat(a[..k], a[k..]);
    assert a[..k] + a[k..] == a;
  }

  /** The values a buffer `w` with write position `head` and `count` values holds,
      oldest first. */
  ghost function Held(w: seq<u64>, head: nat, count: nat): (s: seq<u64>)
    requires count <= |w| && head <= |w|
    ensures |s| == count
  {
    if count < |w| then w[..count] else w[head..] + w[..head]
  }

  /** The buffer `w` holds the last `|w|` values of `pushed`. */
  ghost predicate Refines(w: seq<u64>, head: nat, count: nat, pushed: seq<u64>) {
    && count <= |w|
    && (if |w| == 0 then head == 0 else head < |w|)
    && (count < |w| ==> head == count)
    && Held(w, head, count) == LastN(pushed, |w|)
  }

  /** Where position `i` of a doubled buffer falls. */
  lemma Around(i: nat, n: nat)
    requires i < 2 * n
    ensures i % n == if i < n then i else i - n
  {
    var q, r := i / n, i % n;
    assert i == q * n + r && 0 <= r < n;
    if i < n {
      assert q == 0;
    } else {
      assert q == 1;
    }
  }

  lemma LastNAfterPush(s: seq<u64>, x: u64, n: nat)
    requires n > 0
    ensures LastN(s + [x], n)
      == if |s| < n then LastN(s, n) + [x] else LastN(s, n)[1..] + [x]
  {
  }

  lemma HeldAfterPush(w: seq<u64>, head: nat, count: nat, x: u64)
    requires count <= |w| && head < |w|
    requires count < |w| ==> head == count
    ensures var next := if head + 1 < |w| then head + 1 else 0;
      Held(w[head := x], next, if count < |w| then count + 1 else count)
      == if count < |w| then Held(w, head, count) + [x] else Held(w, head, count)[1..] + [x]
  {
    var v := w[head := x];
    if count == |w| && head + 1 < |w| {
      assert v[head + 1..] == w[head + 1..];
      assert v[..head + 1] == w[..head] + [x];
      assert Held(w, head, count)[1..] == w[head + 1..] + w[..head];
    }
  }

  /** Writing at the head and advancing it around the buffer is a push. */
  lemma PushRefines(w: seq<u64>, head: nat, count: nat, pushed: seq<u64>, x: u64)
    requires |w| > 0 && Refines(w, head, count, pushed)
    ensures Refines(w[head := x], (head + 1) % |w|, if count < |w| then count + 1 else count, pushed + [x])
  {
    Around(head + 1, |w|);
    HeldAfterPush(w, head, count, x);
    LastNAfterPush(pushed, x, |w|);
  }

  lemma SumOfOneMore(w: seq<u64>, i: nat)
    requires i < |w|
    ensures Add64(Wrap64(Sum(w[..i])), w[i]) == Wrap64(Sum(w[..i + 1]))
  {
    assert w[..i + 1] == w[..i] + [w[i]];
    SumOfConcat(w[..i], [w[i]]);
    assert [w[i]][1..] == [];
    Add64OfWrap(Sum(w[..i]), w[i]);
  }

  /** Storage order and age order have the same sum. */
  lemma SumOfHeld(w: seq<u64>, head: nat, count: nat)
    requires count <= |w| && head <= |w|
    ensures Sum(w[..count]) == Sum(Held(w, head, count))
  {
    if count == |w| {
      SumOfRotation(w, head);
      assert w[..count] == w;
    }
  }

  class Window {
    const window: array<u64>
    var head: nat
    var count: nat
    ghost var pushed: seq<u64>  // every value ever pushed, oldest first

    ghost predicate Valid()
      reads this, window
    {
      Refines(window[..], head, count, pushed)
    }

    constructor (size: nat)
      ensures Valid() && fresh(window)
      ensures window.Length == size && pushed == []
    {
      window := new u64[size](_ => 0);
      head, count, pushed := 0, 0, [];
    }

    method Push(pps: u64)
      requires Valid()
      modifies this, window
      ensures Valid()
      ensures pushed == old(pushed) + [pps]
    {
      pushed := pushed + [pps];
      if window.Length == 0 {
        return;
      }
      ghost var w := window[..];
      PushRefines(w, head, count, old(pushed), pps);
      window[head] := pps;
      assert window[..] == w[head := pps];
      head := (head + 1) % window.Length;
      if count < window.Length {
        count := count + 1;
      }
    }

    /** `copy_snapshot`: exactly the last `min(n, size)` values pushed, oldest
        first. */
    method CopySnapshot() returns (out: seq<u64>)
      requires Valid()
      ensures out == LastN(pushed, window.Length)
    {
      out := [];
      if count == 0 {
        return;
      }
      ghost var held := Held(window[..], head, count);
      var start := if count < window.Length then 0 else head;
      for i := 0 to count
        invariant |out| == i
        invariant forall j :: 0 <= j < i ==> out[j] == held[j]
      {
        Around(start + i, window.Length);
        out := out + [window[(start + i) % window.Length]];
      }
      assert out == held;
    }

    /** `latest`: the last value pushed, or zero when the window holds none. */
    method Latest() returns (r: u64)
      requires Valid()
      ensures r == if pushed == [] || window.Length == 0 then 0 else pushed[|pushed| - 1]
    {
      if count == 0 || window.Length == 0 {
        return 0;
      }
      assert Held(window[..], head, count)[count - 1] == pushed[|pushed| - 1];
      var idx := if head == 0 then window.Length - 1 else head - 1;
      r := window[idx];
    }

    /** `current_average`: sums in storage order, in 64 bits, and divides. The
        result is the floor mean of the snapshot whenever its sum fits. */
    method CurrentAverage() returns (r: u64)
      requires Valid()
      ensures var snapshot := LastN(pushed, window.Length);
        r == if snapshot == [] then 0 else Wrap64(Sum(snapshot)) / |snapshot|
    {
      ghost var w := window[..];
      SumOfHeld(w, head, count);
      if count == 0 {
        return 0;
      }
      var sum: u64 := 0;
      for i := 0 to count
        invariant sum == Wrap64(Sum(w[..i]))
      {
        SumOfOneMore(w, i);
        sum := Add64(sum, window[i]);
      }
      r := sum / count;
    }
  }
}
