// The byte ring buffer, as a bounded queue.
module RingBuffer {
  import opened Bytes

  function Min(a: nat, b: nat): nat
  {
    if a < b then a else b
  }

  // The last n elements, or all if there are fewer.
  function Last<X>(s: seq<X>, n: nat): (r: seq<X>)
    ensures |r| == Min(|s|, n)
  {
    s[|s| - Min(|s|, n)..]
  }

  // ----- rings -----

  function Wrap(i: nat, size: nat): nat
  {
    if i < size then i else i - size
  }

  // n bytes around the ring from start on.
  function Ring(b: seq<byte>, start: nat, n: nat): (r: seq<byte>)
    requires start < |b| && n <= |b|
    ensures |r| == n
  {
    seq(n, i requires 0 <= i < n => b[Wrap(start + i, |b|)])
  }

  lemma RingAt(b: seq<byte>, start: nat, n: nat, i: nat)
    requires start < |b| && i < n <= |b|
    ensures Ring(b, start, n)[i] == b[Wrap(start + i, |b|)]
  {
  }

  lemma RingSlices(b: seq<byte>, start: nat, n: nat)
    requires start < |b| && n <= |b|
    ensures Ring(b, start, n) == if start + n <= |b| then b[start..start + n] else b[start..] + b[..start + n - |b|]
  {
    var slices := if start + n <= |b| then b[start..start + n] else b[start..] + b[..start + n - |b|];
    assert |slices| == n;
    forall i | 0 <= i < n ensures Ring(b, start, n)[i] == slices[i] {
      RingAt(b, start, n, i);
    }
  }

  lemma RingCut(b: seq<byte>, start: nat, n: nat, k: nat)
    requires start < |b| && k <= n <= |b|
    ensures Wrap(start + k, |b|) < |b|
    ensures Ring(b, start, n)[..k] == Ring(b, start, k)
            && Ring(b, start, n)[k..] == Ring(b, Wrap(start + k, |b|), n - k)
  {
    var at := Wrap(start + k, |b|);
    var rest := Ring(b, start, n)[k..];
    forall i | 0 <= i < n - k ensures rest[i] == Ring(b, at, n - k)[i] {
      assert rest[i] == Ring(b, start, n)[k + i];
      RingAt(b, start, n, k + i);
      RingAt(b, at, n - k, i);
    }
    forall i | 0 <= i < k ensures Ring(b, start, n)[..k][i] == Ring(b, start, k)[i] {
      RingAt(b, start, n, i);
      RingAt(b, start, k, i);
    }
  }

  // s written from place at on, around the ring.
  function Written(b: seq<byte>, at: nat, s: seq<byte>): (r: seq<byte>)
    requires at < |b| && |s| <= |b|
    ensures |r| == |b|
  {
    if at + |s| <= |b| then b[..at] + s + b[at + |s|..]
    else s[|b| - at..] + b[at + |s| - |b|..at] + s[..|b| - at]
  }

  // Two copies, up to the end of the buffer and from its beginning.
  lemma WrittenTwice(b: seq<byte>, at: nat, s: seq<byte>)
    requires at < |b| && |s| <= |b| < at + |s|
    ensures var first := |b| - at;
            var c := b[..at] + s[..first] + b[at + first..];
            c[..0] + s[first..] + c[|s| - first..] == Written(b, at, s)
  {
    var first := |b| - at;
    var c := b[..at] + s[..first] + b[at + first..];
    assert c == b[..at] + s[..first];
    assert c[|s| - first..] == b[|s| - first..at] + s[..first];
  }

  lemma WrittenOnce(b: seq<byte>, at: nat, s: seq<byte>)
    requires at < |b| && at + |s| <= |b|
    ensures b[..at] + s + b[at + |s|..] == Written(b, at, s)
  {
  }

  lemma WrittenNothing(b: seq<byte>, at: nat)
    requires at < |b|
    ensures Written(b, at, []) == b
  {
  }

  lemma LastKept<X>(s: seq<X>, t: seq<X>, drop: nat, n: nat)
    requires drop <= |s| && |s| - drop + |t| <= n && (drop > 0 ==> |s| - drop + |t| == n)
    ensures Last(s + t, n) == s[drop..] + t
  {
  }

  lemma LastOnly<X>(s: seq<X>, t: seq<X>, n: nat)
    requires |t| >= n
    ensures Last(s + t, n) == t[|t| - n..]
  {
  }

  lemma WrittenIn(b: seq<byte>, at: nat, s: seq<byte>, j: nat)
    requires at < |b| && j < |s| <= |b|
    ensures Written(b, at, s)[Wrap(at + j, |b|)] == s[j]
  {
  }

  lemma WrittenOut(b: seq<byte>, at: nat, s: seq<byte>, p: nat)
    requires at < |b| && p < |b| && |s| <= |b|
    requires if p >= at then p - at >= |s| else p + |b| - at >= |s|
    ensures Written(b, at, s)[p] == b[p]
  {
  }

  lemma RingWritten(b: seq<byte>, start: nat, n: nat, s: seq<byte>)
    requires start < |b| && n < |b| && n + |s| <= |b|
    ensures Ring(Written(b, Wrap(start + n, |b|), s), start, n + |s|) == Ring(b, start, n) + s
  {
    var at := Wrap(start + n, |b|);
    var w, r := Written(b, at, s), Ring(b, start, n);
    var t := Ring(w, start, n + |s|);
    hide Ring, Written;
    forall i | 0 <= i < n + |s| ensures t[i] == (r + s)[i] {
      RingAt(w, start, n + |s|, i);
      if i < n {
        RingAt(b, start, n, i);
        WrittenOut(b, at, s, Wrap(start + i, |b|));
      } else {
        WrittenIn(b, at, s, i - n);
      }
    }
  }

  // What the two positions say of a number of bytes that lie between them.
  lemma SpanLeft(start: nat, end: nat, size: nat, n: nat)
    requires start < size && n <= size && end == Wrap(start + n, size) < size
    ensures n == size || n == if start > end then size - (start - end) else end - start
    ensures n == size ==> start == end
  {
  }

  // ----- the buffer -----

  method Copy(buffer: array<byte>, at: nat, s: seq<byte>)
    requires at + |s| <= buffer.Length
    modifies buffer
    ensures buffer[..] == old(buffer[..])[..at] + s + old(buffer[..])[at + |s|..]
  {
    forall i | 0 <= i < |s| {
      buffer[at + i] := s[i];
    }
  }

  class HalRingbuffer {
    const buffer: array<byte>
    var start: nat
    var end: nat
    var isfull: bool

    ghost predicate Valid()
      reads this
    {
      buffer.Length > 0 && start < buffer.Length && end < buffer.Length && (isfull ==> start == end)
    }

    // Bytes from start up to end, none if they are equal.
    function Span(): (n: nat)
      reads this
      requires start < buffer.Length && end < buffer.Length
      ensures n < buffer.Length && end == Wrap(start + n, buffer.Length)
    {
      if start > end then buffer.Length - (start - end) else end - start
    }

    // What the buffer holds, oldest byte first.
    ghost function Contents(): (s: seq<byte>)
      reads this, buffer
      requires Valid()
      ensures |s| <= buffer.Length && (isfull <==> |s| == buffer.Length)
    {
      Ring(buffer[..], start, if isfull then buffer.Length else Span())
    }

    constructor (size: nat)
      requires size > 0
      ensures Valid() && Contents() == [] && buffer.Length == size && fresh(buffer)
    {
      buffer := new byte[size];
      start, end, isfull := 0, 0, false;
    }

    method Reset()
      requires Valid()
      modifies this
      ensures Valid() && Contents() == []
    {
      start, end, isfull := 0, 0, false;
    }

    method IsEmpty() returns (r: bool)
      requires Valid()
      ensures r <==> Contents() == []
    {
      if isfull {
        return false;
      }
      r := start == end;
    }

    method IsFull() returns (r: bool)
      requires Valid()
      ensures r <==> |Contents()| == buffer.Length
    {
      r := isfull;
    }

    // Copies bytes out from the start, around the ring, and moves the start.
    method Fetch(len: nat) returns (out: seq<byte>)
      requires start < buffer.Length && len <= buffer.Length
      modifies `start
      ensures out == Ring(buffer[..], old(start), len) && start == Wrap(old(start) + len, buffer.Length) < buffer.Length
    {
      hide Ring;
      RingSlices(buffer[..], start, len);
      if start + len >= buffer.Length {
        var first := buffer.Length - start;
        out := buffer[start..] + buffer[..len - first];
        start := len - first;
      } else {
        out := buffer[start..start + len];
        start := start + len;
      }
    }

    // Takes out the first bytes, as many as there are and as are asked for.
    method Get(size: nat) returns (out: seq<byte>)
      requires Valid()
      modifies this
      ensures Valid() && |out| == Min(size, old(|Contents()|)) && out + Contents() == old(Contents())
    {
      hide Ring;
      ghost var b, n := buffer[..], |Contents()|;
      var len: int;
      if isfull {
        len := buffer.Length;
      } else {
        len := end - start;
        if len == 0 {
          return [];
        } else if len < 0 {
          len := len + buffer.Length;
        }
      }
      len := if len > size then size else len;
      RingCut(b, start, n, len);
      ghost var all := Ring(b, start, n);
      out := Fetch(len);
      if isfull && len != 0 {
        isfull := false;
      }
      assert all[..len] + all[len..] == all;
      SpanLeft(start, end, buffer.Length, n - len);
    }

    function Room(): (room: nat)
      reads this
      requires start < buffer.Length && end < buffer.Length
      ensures room == buffer.Length - Span()
    {
      if start > end then start - end else buffer.Length - (end - start)
    }

    // Copies bytes in behind the end, around the ring, and moves the end.
    method Store(s: seq<byte>)
      requires start < buffer.Length && end < buffer.Length && |s| <= Room()
      modifies `end, buffer
      ensures buffer[..] == Written(old(buffer[..]), old(end), s) && end < buffer.Length
              && end == Wrap(old(end) + |s|, buffer.Length)
    {
      hide Written;
      ghost var b := buffer[..];
      if end + |s| > buffer.Length {
        var first := buffer.Length - end;
        WrittenTwice(b, end, s);
        Copy(buffer, end, s[..first]);
        ghost var c := buffer[..];
        Copy(buffer, 0, s[first..]);
        assert buffer[..] == c[..0] + s[first..] + c[|s| - first..];
        end := |s| - first;
      } else {
        WrittenOnce(b, end, s);
        Copy(buffer, end, s);
        end := end + |s|;
        end := if end == buffer.Length then 0 else end;
      }
    }

    // Writes bytes behind the end, as many as fit. The mark for full may still be set from
    // before if just as many bytes come as there is room for.
    method Append(data: seq<byte>) returns (len: nat)
      requires start < buffer.Length && end < buffer.Length
               && (isfull ==> |data| == Room() || (data == [] && start == end))
      modifies `end, `isfull, buffer
      ensures Valid() && len == Min(|data|, old(Room()))
      ensures data == [] ==> end == old(end) && isfull == old(isfull) && buffer[..] == old(buffer[..])
      ensures data != [] ==> Contents() == Ring(old(buffer[..]), start, old(Span())) + data[..len]
    {
      hide Ring, Written;
      ghost var b, n := buffer[..], Span();
      len := if Room() > |data| then |data| else Room();
      RingWritten(b, start, n, data[..len]);
      Store(data[..len]);
      WrittenNothing(b, Wrap(start + n, |b|));
      SpanLeft(start, end, buffer.Length, n + len);
      if end == start && len != 0 {
        isfull := true;
      }
    }

    // Adds the longest beginning of the data that fits.
    method Put(data: seq<byte>) returns (len: nat)
      requires Valid()
      modifies this, buffer
      ensures Valid() && len == Min(|data|, buffer.Length - old(|Contents()|))
      ensures Contents() == old(Contents()) + data[..len]
    {
      hide Ring;
      if isfull {
        return 0;
      }
      len := Append(data);
    }

    // Starts afresh with as many bytes as the buffer has room for.
    method Refill(tail: seq<byte>) returns (len: nat)
      requires buffer.Length > 0 && |tail| == buffer.Length
      modifies this, buffer
      ensures Valid() && len == buffer.Length && Contents() == tail
    {
      hide Ring;
      start, end, isfull := 0, 0, false;
      RingCut(buffer[..], 0, 0, 0);
      ghost var none := Ring(buffer[..], 0, 0);
      len := Append(tail);
      assert none + tail == tail && tail[..len] == tail;
    }

    // Drops the oldest bytes by moving the start. The mark for full stays as it was.
    method Discard(drop: nat)
      requires Valid() && 0 < drop < buffer.Length && drop <= |Contents()|
      modifies `start
      ensures start < buffer.Length && Span() == old(|Contents()|) - drop
      ensures Ring(buffer[..], start, Span()) == old(Contents())[drop..]
    {
      hide Ring;
      ghost var n := |Contents()|;
      RingCut(buffer[..], start, n, drop);
      start := start + drop;
      start := if start >= buffer.Length then start - buffer.Length else start;
      SpanLeft(start, end, buffer.Length, n - drop);
    }

    // Adds all of the data and drops what is too old: the last bytes remain, as many as the
    // buffer has room for.
    method ForcePut(data: seq<byte>) returns (len: nat)
      requires Valid()
      modifies this, buffer
      ensures Valid() && len == Min(|data|, buffer.Length)
      ensures Contents() == Last(old(Contents()) + data, buffer.Length)
    {
      hide Ring, Last;
      ghost var before := Contents();
      if |data| >= buffer.Length {
        LastOnly(before, data, buffer.Length);
        len := Refill(data[|data| - buffer.Length..]);
        return;
      }
      var remain: nat := if isfull then 0 else Room();
      assert remain == buffer.Length - |before|;
      LastKept(before, data, if remain < |data| then |data| - remain else 0, buffer.Length);
      assert before[0..] == before && data[..|data|] == data;
      if remain < |data| {
        Discard(|data| - remain);
      } else if data == [] {
        len := Append(data);
        assert before + data == before;
        return;
      }
      len := Append(data);
    }
  }
}
