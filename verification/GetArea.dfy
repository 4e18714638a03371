/**
 The consumer's chunked read, my_xsgetn_a of src/genmc_buffer_reset_test.c, over the shared
 block. The body of update_get_area is not part of this model; its two outcomes are those of
 src/genmc_reset_algo.c, and what the atomics returned is a parameter.
 */
module GetArea {

  /** What one call of update_get_area found: whether the block was reset, and cur_pptr. */
  datatype Seen = Seen(resetting: bool, pptr: nat)

  function Start(gptr: nat, seen: Seen): nat { if seen.resetting then 0 else gptr }

  /** The gptr and cur_pptr of the detection that counts: the second, when the first found an
      empty buffer. */
  function Used(gptr: nat, seen: Seen, again: Seen): (nat, nat) {
    if Start(gptr, seen) < seen.pptr then (Start(gptr, seen), seen.pptr) else (Start(seen.pptr, again), again.pptr)
  }

  /** now is was, with count characters of block[start..] at index at. */
  ghost predicate Copied(now: seq<char>, was: seq<char>, at: nat, block: seq<char>, start: nat, count: nat)
    requires at + count <= |was| && start + count <= |block|
  {
    && |now| == |was|
    && forall i :: 0 <= i < |now| ==> now[i] == if at <= i < at + count then block[start + i - at] else was[i]
  }

  function Min(a: nat, b: nat): nat { if a < b then a else b }

  class Consumer {
    const buffer: array<char>
    var gptr: nat
    var lastGptr: nat
    var totalRead: nat

    constructor (buffer: array<char>)
      ensures this.buffer == buffer && gptr == 0 && lastGptr == 0 && totalRead == 0
    {
      this.buffer := buffer;
      gptr, lastGptr, totalRead := 0, 0, 0;
    }

    method UpdateGetArea(seen: Seen) returns (curGptr: nat, available: nat)
      requires Start(gptr, seen) <= seen.pptr <= buffer.Length
      modifies this`gptr
      ensures gptr == Start(old(gptr), seen) == curGptr
      ensures curGptr + available == seen.pptr
    {
      if seen.resetting {
        gptr := 0;
      }
      curGptr := gptr;
      available := seen.pptr - gptr;
    }

    /** The detection loop: a second look when the first finds nothing. */
    method Detect(seen: Seen, again: Seen) returns (curGptr: nat, available: nat)
      requires Start(gptr, seen) <= seen.pptr <= buffer.Length
      requires Start(gptr, seen) == seen.pptr ==> Start(seen.pptr, again) <= again.pptr <= buffer.Length
      modifies this`gptr
      ensures curGptr == gptr == Used(old(gptr), seen, again).0
      ensures gptr + available == Used(old(gptr), seen, again).1
    {
      var looked := 0;
      curGptr, available := 0, 0;
      while available == 0 && looked < 2
        invariant looked <= 2 && (looked == 0 ==> available == 0 && gptr == old(gptr))
        invariant looked == 1 ==> gptr == curGptr == Start(old(gptr), seen) && gptr + available == seen.pptr
        invariant looked == 2 ==> gptr == curGptr == Start(seen.pptr, again) && gptr + available == again.pptr
        invariant looked == 2 ==> Start(old(gptr), seen) == seen.pptr
        decreases 2 - looked
      {
        curGptr, available := UpdateGetArea(if looked == 0 then seen else again);
        looked := looked + 1;
      }
    }

    /** Reads up to n characters to s[at..]. The characters come from the block in order, start
        at the gptr that the (second) detection left, and are as many as were asked for and
        are available. Nothing else of s changes, and the totals move with the read. */
    method Xsgetn(s: array<char>, at: nat, n: nat, seen: Seen, again: Seen) returns (count: nat)
      requires s != buffer && at + n <= s.Length
      requires Start(gptr, seen) <= seen.pptr <= buffer.Length
      requires Start(gptr, seen) == seen.pptr ==> Start(seen.pptr, again) <= again.pptr <= buffer.Length
      modifies this, s
      ensures var (start, end) := Used(old(gptr), seen, again);
        && count == Min(n, end - start) && gptr == start + count
        && totalRead == old(totalRead) + count
        && lastGptr == (if start < end then gptr else old(lastGptr))
        && Copied(s[..], old(s[..]), at, buffer[..], start, count)
    {
      var curGptr, available := Detect(seen, again);
      if available == 0 {
        return 0;
      }
      count := Copy(s, at, n, available);
      gptr := gptr + count;
      lastGptr := curGptr + count;
      totalRead := totalRead + count;
    }

    /** The copy loop. */
    method Copy(s: array<char>, at: nat, n: nat, available: nat) returns (count: nat)
      requires s != buffer && at + n <= s.Length && 0 < available && gptr + available <= buffer.Length
      modifies s
      ensures count == Min(n, available)
      ensures Copied(s[..], old(s[..]), at, buffer[..], gptr, count)
    {
      var remaining, left := n, available;
      while remaining > 0
        invariant 0 <= remaining <= n && 0 < left
        invariant n - remaining + Min(remaining, left) == Min(n, available)
        invariant Copied(s[..], old(s[..]), at, buffer[..], gptr, n - remaining)
      {
        s[at + n - remaining] := buffer[gptr + n - remaining];
        remaining := remaining - 1;
        left := left - 1;
        if left == 0 {
          break;
        }
      }
      count := n - remaining;
    }
  }
}
