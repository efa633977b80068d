/** The byte ring buffer of core/RP2350/src/ringbuffer.py: a fixed
    `bytearray` with a head (next write) and a tail (next read). One slot
    always stays free, so the buffer holds at most `size - 1` bytes, and a
    write into a full buffer overwrites the oldest byte. */
module RingBuffers {
  import opened Wrappers
  import opened Bytes

  // ---------------------------------------------------------------------
  // Index arithmetic

  /** Euclidean `%` on a value less than one period away from `[0, m)`. */
  lemma ModWrap(x: int, m: int)
    requires 0 < m && -m <= x < 2 * m
    ensures x % m == if x < 0 then x + m else if x < m then x else x - m
  {
  }

  /** How many slots lie from `tail` up to `head`, going forward and
      wrapping at `n`: `(head - tail) % n`. */
  function Dist(tail: nat, head: nat, n: nat): nat
    requires tail < n && head < n
  {
    if tail <= head then head - tail else head + n - tail
  }

  /** The slot after `i`: `(i + 1) % n`. */
  function Next(i: nat, n: nat): nat
  {
    if i + 1 < n then i + 1 else 0
  }

  /** The bytes `n` slots long that start at `tail` and wrap around the
      end of `b`. */
  function Ring<T>(b: seq<T>, tail: nat, n: nat): seq<T>
    requires tail < |b| && n <= |b|
  {
    seq(n, k requires 0 <= k < n => b[if tail + k < |b| then tail + k else tail + k - |b|])
  }

  /** Byte `i` of the window is the byte in its slot. */
  lemma RingAt<T>(b: seq<T>, tail: nat, n: nat, i: nat)
    requires tail < |b| && n <= |b| && i < n
    ensures Ring(b, tail, n)[i] == b[if tail + i < |b| then tail + i else tail + i - |b|]
  {
  }

  /** The last `k` bytes of `s`, or all of it when it is shorter. */
  function Newest<T>(s: seq<T>, k: nat): seq<T>
  {
    if |s| <= k then s else s[|s| - k..]
  }

  /** `put` never stores more than the buffer can hold, and what it keeps
      is the end of what was written, the bytes in order. */
  lemma NewestIsSuffix<T>(s: seq<T>, k: nat)
    ensures |Newest(s, k)| == Min(|s|, k)
    ensures Newest(s, k) == s[|s| - Min(|s|, k)..]
  {
  }

  /** Keeping the newest `k` bytes after every byte is keeping the newest
      `k` bytes once, at the end. */
  lemma NewestStep<T>(s: seq<T>, x: T, k: nat)
    requires k > 0
    ensures Newest(Newest(s, k) + [x], k) == Newest(s + [x], k)
  {
    if |s| >= k {
      assert Newest(s, k) + [x] == s[|s| - k..] + [x];
      assert (s[|s| - k..] + [x])[1..] == (s + [x])[|s| + 1 - k..];
    }
  }

  /** Appending the data one byte at a time. */
  lemma NewestPrefix<T>(s: seq<T>, data: seq<T>, i: nat, k: nat)
    requires i < |data| && k > 0
    ensures Newest(s + data[..i + 1], k) == Newest(Newest(s + data[..i], k) + [data[i]], k)
  {
    NewestStep(s + data[..i], data[i], k);
    assert s + data[..i + 1] == (s + data[..i]) + [data[i]];
  }

  /** While the bytes fit, nothing is lost. */
  lemma NewestKeepsAll<T>(s: seq<T>, k: nat)
    requires |s| <= k
    ensures Newest(s, k) == s
  {
  }

  /** One `put` of byte `x`, on the raw slots: `x` goes to `head`, which
      moves on, and the tail moves on too when the buffer was full. */
  lemma {:induction false} RingPush<T>(b: seq<T>, head: nat, tail: nat, x: T, nxt: nat, tail': nat)
    requires 2 <= |b| && head < |b| && tail < |b|
    requires nxt == Next(head, |b|)
    requires tail' == if nxt == tail then Next(tail, |b|) else tail
    ensures nxt < |b| && tail' < |b|
    ensures Ring(b[head := x], tail', Dist(tail', nxt, |b|)) == Newest(Ring(b, tail, Dist(tail, head, |b|)) + [x], |b| - 1)
  {
    var n := |b|;
    var a := Dist(tail, head, n);
    var old' := Ring(b, tail, a);
    var new' := Ring(b[head := x], tail', Dist(tail', nxt, n));
    if a < n - 1 {
      assert |new'| == a + 1;
      forall k | 0 <= k < a + 1
        ensures new'[k] == (old' + [x])[k]
      {
      }
      assert new' == old' + [x];
      NewestKeepsAll(old' + [x], n - 1);
    } else {
      assert |new'| == n - 1;
      forall k | 0 <= k < n - 1
        ensures new'[k] == (old' + [x])[k + 1]
      {
      }
      assert new' == (old' + [x])[1..];
    }
  }

  /** The slots read by `get` and `peek`: one slice, or the tail end of the
      array followed by its start. */
  lemma RingSlices<T>(b: seq<T>, tail: nat, m: nat)
    requires tail < |b| && m <= |b|
    ensures (if tail + m <= |b| then b[tail..tail + m] else b[tail..] + b[..tail + m - |b|]) == Ring(b, tail, m)
  {
  }

  /** Moving the tail on by `m` drops the first `m` bytes. */
  lemma RingAdvance<T>(b: seq<T>, head: nat, tail: nat, a: nat, m: nat, tail': nat)
    requires 2 <= |b| && head < |b| && tail < |b| && a == Dist(tail, head, |b|) && m <= a
    requires tail' == if tail + m < |b| then tail + m else tail + m - |b|
    ensures tail' < |b| && Dist(tail', head, |b|) == a - m
    ensures Ring(b, tail', a - m) == Ring(b, tail, a)[m..]
  {
  }

  // ---------------------------------------------------------------------
  // Pattern search

  /** `p` occurs in `w` at position `k`. */
  predicate OccursAt(w: bytes, p: bytes, k: nat)
  {
    k + |p| <= |w| && w[k..k + |p|] == p
  }

  /** The first position at or after `from` where `p` occurs in `w`, or -1. */
  function Search(w: bytes, p: bytes, from: nat): (r: int)
    ensures r == -1 || (from <= r && OccursAt(w, p, r))
    decreases |w| - from
  {
    if from + |p| > |w| then -1
    else if w[from..from + |p|] == p then from
    else Search(w, p, from + 1)
  }

  /** The first occurrence of `p` in `w`, or -1 when there is none. */
  function FirstOccurrence(w: bytes, p: bytes): (r: int)
    ensures r == -1 || (0 <= r && OccursAt(w, p, r))
  {
    Search(w, p, 0)
  }

  lemma {:induction false} SearchIsFirst(w: bytes, p: bytes, from: nat)
    ensures Search(w, p, from) == -1 ==> forall k: nat :: from <= k ==> !OccursAt(w, p, k)
    ensures forall k: nat :: from <= k < Search(w, p, from) ==> !OccursAt(w, p, k)
    decreases |w| - from
  {
    if from + |p| <= |w| && w[from..from + |p|] != p {
      SearchIsFirst(w, p, from + 1);
      assert !OccursAt(w, p, from);
    }
  }

  /** `FirstOccurrence` is -1 exactly when the pattern does not occur, and
      otherwise an occurrence with none before it. */
  lemma FirstOccurrenceIsFirst(w: bytes, p: bytes)
    ensures FirstOccurrence(w, p) == -1 <==> forall k: nat :: !OccursAt(w, p, k)
    ensures forall k: nat :: k < FirstOccurrence(w, p) ==> !OccursAt(w, p, k)
  {
    SearchIsFirst(w, p, 0);
  }

  /** An occurrence inside a prefix of `w` is an occurrence in `w`. */
  lemma OccursInPrefix(w: bytes, p: bytes, k: nat, len: nat)
    requires len <= |w| && OccursAt(w[..len], p, k)
    ensures OccursAt(w, p, k)
  {
    assert w[..len][k..k + |p|] == w[k..k + |p|];
  }

  /** The scan of `_ring_buffer_find_pattern` as written: `m` bytes of the
      pattern are matched up to position `i`; on a mismatch it starts again
      at the current byte only, never at a later byte of the failed
      partial match. */
  function ScanAsWritten(w: bytes, p: bytes, i: nat, m: nat): (r: int)
    requires m < |p| && m <= i <= |w|
    ensures r == -1 || 0 <= r
    decreases |w| - i
  {
    if i == |w| then -1
    else if w[i] == p[m] then
      if m + 1 == |p| then i - m else ScanAsWritten(w, p, i + 1, m + 1)
    else if m > 0 && w[i] == p[0] then ScanAsWritten(w, p, i + 1, 1)
    else ScanAsWritten(w, p, i + 1, 0)
  }

  /** What the scan reports is an occurrence. */
  lemma {:induction false} ScanAsWrittenSound(w: bytes, p: bytes, i: nat, m: nat)
    requires m < |p| && m <= i <= |w| && w[i - m..i] == p[..m]
    ensures ScanAsWritten(w, p, i, m) == -1 || OccursAt(w, p, ScanAsWritten(w, p, i, m))
    decreases |w| - i
  {
    if i < |w| {
      if w[i] == p[m] {
        assert w[i - m..i + 1] == w[i - m..i] + [w[i]];
        assert p[..m + 1] == p[..m] + [p[m]];
        if m + 1 < |p| {
          ScanAsWrittenSound(w, p, i + 1, m + 1);
        } else {
          assert p[..m + 1] == p;
        }
      } else if m > 0 && w[i] == p[0] {
        assert w[i..i + 1] == p[..1];
        ScanAsWrittenSound(w, p, i + 1, 1);
      } else {
        ScanAsWrittenSound(w, p, i + 1, 0);
      }
    }
  }

  /** The as-written search reports only true occurrences. */
  lemma FindAsWrittenSound(w: bytes, p: bytes)
    requires |p| > 0
    ensures ScanAsWritten(w, p, 0, 0) == -1 || OccursAt(w, p, ScanAsWritten(w, p, 0, 0))
  {
    ScanAsWrittenSound(w, p, 0, 0);
  }

  /** But it misses an occurrence that overlaps a failed partial match:
      `b"aab"` occurs in `b"aaab"` at 1, and the scan gives up. */
  lemma AsWrittenMissesOverlap()
    ensures ScanAsWritten([0x61, 0x61, 0x61, 0x62], [0x61, 0x61, 0x62], 0, 0) == -1
    ensures FirstOccurrence([0x61, 0x61, 0x61, 0x62], [0x61, 0x61, 0x62]) == 1
  {
    var w: bytes := [0x61, 0x61, 0x61, 0x62];
    var p: bytes := [0x61, 0x61, 0x62];
    assert w[0..3] != p by { assert w[2] != p[2]; }
    assert w[1..4] == p;
  }

  /** `_ring_buffer_find_pattern` as written, over the slots of the buffer. */
  method FindPatternAsWritten(buf: array<byte>, head: nat, tail: nat, pattern: bytes, maxSearch: int)
    returns (r: int)
    requires 1 <= buf.Length && head < buf.Length && tail < buf.Length && |pattern| > 0
    ensures var searchLen := Min(Dist(tail, head, buf.Length), maxSearch);
      r == if searchLen < |pattern| then -1
           else ScanAsWritten(Ring(buf[..], tail, searchLen), pattern, 0, 0)
  {
    ModWrap(head - tail, buf.Length);
    var available := (head - tail) % buf.Length;
    var searchLen := Min(available, maxSearch);
    if searchLen < |pattern| {
      return -1;
    }
    ghost var w := Ring(buf[..], tail, searchLen);
    assert searchLen == Min(Dist(tail, head, buf.Length), maxSearch);
    var pos := tail;
    var matches := 0;
    var startPos := -1;
    var i := 0;
    while i < searchLen
      invariant 0 <= matches < |pattern| && matches <= i <= searchLen && |w| == searchLen
      invariant pos == if tail + i < buf.Length then tail + i else tail + i - buf.Length
      invariant matches > 0 ==> startPos == i - matches
      invariant ScanAsWritten(w, pattern, 0, 0) == ScanAsWritten(w, pattern, i, matches)
      decreases searchLen - i
    {
      var current := buf[pos];
      RingAt(buf[..], tail, searchLen, i);
      if current == pattern[matches] {
        if matches == 0 {
          startPos := i;
        }
        matches := matches + 1;
        if matches == |pattern| {
          return startPos;
        }
      } else if matches > 0 {
        matches := 0;
        if current == pattern[0] {
          matches := 1;
          startPos := i;
        }
      }
      ModWrap(pos + 1, buf.Length);
      pos := (pos + 1) % buf.Length;
      i := i + 1;
    }
    return -1;
  }

  /** The pattern search with the failed partial match taken back: the next
      candidate starts one byte after the one that failed, so the first
      occurrence inside the search window is found. */
  method FindPattern(buf: array<byte>, head: nat, tail: nat, pattern: bytes, maxSearch: int)
    returns (r: int)
    requires 1 <= buf.Length && head < buf.Length && tail < buf.Length && |pattern| > 0
    ensures var searchLen := Min(Dist(tail, head, buf.Length), maxSearch);
      r == if searchLen < |pattern| then -1
           else FirstOccurrence(Ring(buf[..], tail, searchLen), pattern)
  {
    ModWrap(head - tail, buf.Length);
    var available := (head - tail) % buf.Length;
    var searchLen := Min(available, maxSearch);
    if searchLen < |pattern| {
      return -1;
    }
    ghost var w := Ring(buf[..], tail, searchLen);
    assert searchLen == Min(Dist(tail, head, buf.Length), maxSearch);
    var matches := 0;
    var startPos := -1;
    var i := 0;
    while i < searchLen
      invariant 0 <= matches <= i <= searchLen && |w| == searchLen
      invariant matches > 0 ==> startPos == i - matches
      invariant Candidate(w, pattern, i - matches, i)
      decreases searchLen - (i - matches), searchLen - i
    {
      assert i - (i - matches) < |pattern|;
      var pos := if tail + i < buf.Length then tail + i else tail + i - buf.Length;
      var current := buf[pos];
      RingAt(buf[..], tail, searchLen, i);
      if current == pattern[matches] {
        if matches == 0 {
          startPos := i;
        }
        CandidateGrows(w, pattern, i - matches, i);
        matches := matches + 1;
        if matches == |pattern| {
          return startPos;
        }
        i := i + 1;
      } else {
        CandidateFails(w, pattern, i - matches, i);
        if matches > 0 {
          i := startPos + 1;
          matches := 0;
        } else {
          i := i + 1;
        }
      }
    }
    CandidateExhausted(w, pattern, i - matches);
    return -1;
  }

  /** The search stands at a candidate occurrence at `s`, whose first
      `i - s` bytes match, and no occurrence lies before it. */
  ghost predicate Candidate(w: bytes, p: bytes, s: nat, i: nat)
  {
    s <= i <= |w| && i - s < |p| && w[s..i] == p[..i - s] && forall k: nat :: k < s ==> !OccursAt(w, p, k)
  }

  /** The candidate matches at `i` too: it is either complete, and then
      the first occurrence, or one byte longer. */
  lemma CandidateGrows(w: bytes, p: bytes, s: nat, i: nat)
    requires Candidate(w, p, s, i) && i < |w| && w[i] == p[i - s]
    ensures if i + 1 - s == |p| then FirstOccurrence(w, p) == s else Candidate(w, p, s, i + 1)
  {
    assert w[s..i + 1] == w[s..i] + [w[i]];
    assert p[..i + 1 - s] == p[..i - s] + [p[i - s]];
    if i + 1 - s == |p| {
      assert p[..i + 1 - s] == p;
      assert OccursAt(w, p, s);
      FirstOccurrenceIsFirst(w, p);
    }
  }

  /** The candidate fails at `i`: the next one starts a byte later. */
  lemma CandidateFails(w: bytes, p: bytes, s: nat, i: nat)
    requires Candidate(w, p, s, i) && i < |w| && w[i] != p[i - s]
    ensures Candidate(w, p, s + 1, s + 1)
  {
    if s + |p| <= |w| {
      assert w[s..s + |p|][i - s] == w[i];
    }
    assert !OccursAt(w, p, s);
  }

  /** The window ends before the candidate can be complete: no occurrence. */
  lemma CandidateExhausted(w: bytes, p: bytes, s: nat)
    requires Candidate(w, p, s, |w|)
    ensures FirstOccurrence(w, p) == -1
  {
    FirstOccurrenceIsFirst(w, p);
  }

  // ---------------------------------------------------------------------
  // RingBuffer

  /** What `get_until` gives back: the error for an empty pattern, `None`
      when the pattern is not in the search window, or the bytes up to and
      including its first occurrence. */
  datatype Until = EmptyPattern | NoMatch | Match(data: bytes)

  /** How far `get_until` looks: `max_size` when it is given and not 0,
      but never past the stored bytes. */
  function SearchLimit(avail: nat, maxSize: Option<int>): int
  {
    if maxSize.Some? && maxSize.value != 0 then Min(avail, maxSize.value) else avail
  }

  class RingBuffer {
    const buf: array<byte>
    const size: nat
    var head: nat
    var tail: nat

    ghost predicate Valid()
      reads this
    {
      buf.Length == size && 2 <= size && head < size && tail < size
    }

    /** `avail`: how many bytes are stored, the distance from the tail to
        the head; never the whole buffer. */
    function Avail(): (r: nat)
      requires Valid()
      reads this
      ensures r == Dist(tail, head, size) && r < size
    {
      ModWrap(head - tail, size);
      (head - tail) % size
    }

    /** The stored bytes, oldest first. */
    ghost function Contents(): bytes
      requires Valid()
      reads this, buf
    {
      Ring(buf[..], tail, Avail())
    }

    constructor (size: nat)
      requires 2 <= size
      ensures Valid() && this.size == size && fresh(buf) && Contents() == []
    {
      buf := new byte[size](_ => 0);
      this.size := size;
      head := 0;
      tail := 0;
    }

    /** `RingBuffer(size)`: a size below 2 raises. */
    static method Create(size: int) returns (r: Option<RingBuffer>)
      ensures size < 2 <==> r.None?
      ensures r.Some? ==> fresh(r.value) && fresh(r.value.buf) && r.value.Valid()
      ensures r.Some? ==> r.value.size == size && r.value.Contents() == []
    {
      if size < 2 {
        return None;
      }
      var b := new RingBuffer(size);
      return Some(b);
    }

    /** One step of `put`. */
    method PutByte(x: byte)
      requires Valid()
      modifies this, buf
      ensures Valid() && Contents() == Newest(old(Contents()) + [x], size - 1)
    {
      ghost var b := buf[..];
      ghost var h := head;
      ghost var t := tail;
      ModWrap(head + 1, size);
      var nxt := (head + 1) % size;
      if nxt == tail {
        ModWrap(tail + 1, size);
        tail := (tail + 1) % size;
      }
      buf[head] := x;
      head := nxt;
      RingPush(b, h, t, x, nxt, tail);
      assert buf[..] == b[h := x];
    }

    /** `put`: the bytes are appended; once the buffer is full each new byte
        pushes out the oldest one. */
    method Put(data: bytes)
      requires Valid()
      modifies this, buf
      ensures Valid() && Contents() == Newest(old(Contents()) + data, size - 1)
    {
      ghost var before := Contents();
      assert before + data[..0] == before;
      var i := 0;
      while i < |data|
        invariant 0 <= i <= |data| && Valid()
        invariant Contents() == Newest(before + data[..i], size - 1)
      {
        NewestPrefix(before, data, i, size - 1);
        PutByte(data[i]);
        i := i + 1;
      }
      assert data[..i] == data;
    }

    /** `peek`: the oldest `n` bytes (all of them when fewer are stored),
        left in place; `n` below 1 raises. */
    method Peek(n: int) returns (r: Option<bytes>)
      requires Valid()
      ensures n < 1 <==> r.None?
      ensures r.Some? ==> r.value == Contents()[..Min(n, Avail())]
    {
      if n < 1 {
        return None;
      }
      var m := Min(n, Avail());
      if m == 0 {
        return Some([]);
      }
      RingSlices(buf[..], tail, m);
      if tail + m <= size {
        return Some(buf[tail..tail + m]);
      }
      ModWrap(tail + m, size);
      var part1 := buf[tail..];
      var part2 := buf[..(tail + m) % size];
      return Some(part1 + part2);
    }

    /** `get`: the oldest `n` bytes (all of them when fewer are stored),
        which leave the buffer; `n` below 1 raises. */
    method Get(n: int) returns (r: Option<bytes>)
      requires Valid()
      modifies this
      ensures Valid() && head == old(head)
      ensures n < 1 <==> r.None?
      ensures r.None? ==> tail == old(tail)
      ensures r.Some? ==> r.value == old(Contents())[..Min(n, old(Avail()))]
      ensures r.Some? ==> Contents() == old(Contents())[Min(n, old(Avail()))..]
    {
      if n < 1 {
        return None;
      }
      var m := Min(n, Avail());
      if m == 0 {
        return Some([]);
      }
      RingSlices(buf[..], tail, m);
      ModWrap(tail + m, size);
      RingAdvance(buf[..], head, tail, Avail(), m, (tail + m) % size);
      var out := if tail + m <= size then buf[tail..tail + m] else buf[tail..] + buf[..(tail + m) % size];
      tail := (tail + m) % size;
      return Some(out);
    }

    /** `get_until`: the bytes up to and including the first occurrence of
        `pattern` within the search window, which leave the buffer; nothing
        changes when the pattern is empty or not found. */
    method GetUntil(pattern: bytes, maxSize: Option<int>) returns (r: Until)
      requires Valid()
      modifies this
      ensures Valid() && head == old(head)
      ensures |pattern| == 0 <==> r.EmptyPattern?
      ensures !r.Match? ==> tail == old(tail)
      ensures var limit := SearchLimit(old(Avail()), maxSize);
        var k := FirstOccurrence(old(Contents())[..Max(0, limit)], pattern);
        |pattern| > 0 ==> r == if k < 0 then NoMatch else Match(old(Contents())[..k + |pattern|])
      ensures r.Match? ==> Contents() == old(Contents())[|r.data|..]
    {
      if |pattern| == 0 {
        return EmptyPattern;
      }
      ghost var c := Contents();
      var maxSearch := SearchLimit(Avail(), maxSize);
      if maxSearch < |pattern| {
        assert FirstOccurrence(c[..Max(0, maxSearch)], pattern) == -1;
        return NoMatch;
      }
      var start := FindPattern(buf, head, tail, pattern, maxSearch);
      assert Ring(buf[..], tail, maxSearch) == c[..maxSearch];
      if start == -1 {
        return NoMatch;
      }
      var got := Get(start + |pattern|);
      return Match(got.value);
    }
  }

  /** What `get_until` returns ends with the pattern, holds no earlier
      occurrence of it, and is the front of what was stored; when it finds
      nothing, the window holds no occurrence. */
  lemma GetUntilMeaning(c: bytes, pattern: bytes, limit: nat)
    requires |pattern| > 0 && limit <= |c|
    ensures var k := FirstOccurrence(c[..limit], pattern);
      (k < 0 <==> forall j: nat :: !OccursAt(c[..limit], pattern, j))
      && (k >= 0 ==> var d := c[..k + |pattern|];
            d[|d| - |pattern|..] == pattern
            && forall j: nat :: j < k ==> !OccursAt(d, pattern, j))
  {
    var w := c[..limit];
    var k := FirstOccurrence(w, pattern);
    FirstOccurrenceIsFirst(w, pattern);
    if k >= 0 {
      var d := c[..k + |pattern|];
      assert d[|d| - |pattern|..] == w[k..k + |pattern|];
      forall j: nat | j < k && OccursAt(d, pattern, j)
        ensures false
      {
        assert d == w[..k + |pattern|];
        OccursInPrefix(w, pattern, j, k + |pattern|);
      }
    }
  }
}
