/** The pre-trigger snapshot ring of the microphone driver: a fixed circular buffer of 16-bit samples
    that keeps the newest samples pushed and is read out oldest-first in byte-addressed chunks, two
    bytes a sample. */
module SnapshotRing {
  import opened IntMath

  /** The 16 most significant bits of a 32-bit sample: an arithmetic shift right by 16. */
  function Truncated(raw: int): (s: int)
    ensures 65536 * s <= raw < 65536 * (s + 1)
  {
    raw / 65536
  }

  function TruncatedAll(raw: seq<int>): (s: seq<int>)
    ensures |s| == |raw| && forall i :: 0 <= i < |raw| ==> s[i] == Truncated(raw[i])
  {
    seq(|raw|, i requires 0 <= i < |raw| => Truncated(raw[i]))
  }

  /** The last min(|s|, capacity) elements. */
  function Newest(s: seq<int>, capacity: nat): (r: seq<int>)
    ensures |r| <= capacity && |r| <= |s| && r == s[|s| - |r|..]
    ensures |r| == |s| || |r| == capacity
  {
    if |s| <= capacity then s else s[|s| - capacity..]
  }

  /** The samples a read of `nbytes` at byte `offset` returns, of a ring that holds `contents`. */
  function Chunk(contents: seq<int>, offset: nat, nbytes: nat): (r: seq<int>)
    ensures offset < |contents| * 2 ==>
              |r| == Min(nbytes, |contents| * 2 - offset) / 2
  {
    if offset >= |contents| * 2 then [] else
      var start := offset / 2;
      contents[start..start + Min(nbytes, |contents| * 2 - offset) / 2]
  }

  // ----- Slots of the circular buffer

  /** The slot of the sample with sequence number s. */
  function Slot(s: nat, capacity: nat): (i: nat)
    requires capacity >= 1
    ensures i < capacity
  {
    s % capacity
  }

  lemma MultipleBounds(d: int, capacity: nat)
    requires capacity >= 1
    ensures d >= 1 ==> capacity * d >= capacity
    ensures d <= -1 ==> capacity * d <= -(capacity as int)
  {
    if d >= 1 {
      assert capacity * d == capacity * (d - 1) + capacity;
    } else if d <= -1 {
      assert capacity * d == capacity * (d + 1) - capacity;
    }
  }

  lemma SlotUnique(s: nat, q: nat, i: nat, capacity: nat)
    requires capacity >= 1 && i < capacity && s == capacity * q + i
    ensures Slot(s, capacity) == i
  {
    var d := s / capacity - q;
    assert s % capacity - i == -(capacity * d);
    MultipleBounds(d, capacity);
  }

  lemma SlotsDiffer(s: nat, t: nat, capacity: nat)
    requires s < t < s + capacity
    ensures Slot(s, capacity) != Slot(t, capacity)
  {
    var d := t / capacity - s / capacity;
    assert t - s == capacity * d + (t % capacity - s % capacity);
    MultipleBounds(d, capacity);
  }

  lemma SlotShift(s: nat, k: nat, capacity: nat)
    requires capacity >= 1
    ensures Slot(Slot(s, capacity) + k, capacity) == Slot(s + k, capacity)
  {
    var x := s % capacity + k;
    SlotUnique(s + k, s / capacity + x / capacity, x % capacity, capacity);
  }

  lemma SlotSmall(i: nat, capacity: nat)
    requires i < capacity
    ensures Slot(i, capacity) == i
  {
  }

  lemma SlotWraps(s: nat, capacity: nat)
    requires capacity >= 1
    ensures Slot(s + capacity, capacity) == Slot(s, capacity)
  {
    SlotUnique(s + capacity, s / capacity + 1, s % capacity, capacity);
  }

  /** The read position computed from the head is the slot of the requested sample. */
  lemma StartSlot(p: nat, count: nat, offset: nat, capacity: nat)
    requires capacity >= 1 && count <= p && count <= capacity
    ensures Slot(Slot(Slot(p, capacity) + capacity - count, capacity) + offset, capacity) == Slot(p - count + offset, capacity)
  {
    hide Slot;
    SlotShift(p, capacity - count, capacity);
    SlotShift(p + (capacity - count), offset, capacity);
    SlotWraps(p - count + offset, capacity);
  }

  /** The samples with sequence numbers in [lo, hi) stand in their slots. */
  predicate Holds(b: seq<int>, all: seq<int>, lo: int, hi: nat) {
    |b| >= 1 && hi <= |all| && forall s :: 0 <= s && lo <= s < hi ==> b[Slot(s, |b|)] == all[s]
  }

  lemma HoldsLonger(b: seq<int>, all: seq<int>, longer: seq<int>, lo: int)
    requires Holds(b, all, lo, |all|) && all <= longer
    ensures Holds(b, longer, lo, |all|)
  {
  }

  lemma StoreNext(b: seq<int>, all: seq<int>, lo: int, hi: nat)
    requires Holds(b, all, lo, hi) && hi < |all| && lo == hi - Min(hi, |b|)
    ensures Holds(b[Slot(hi, |b|) := all[hi]], all, hi + 1 - Min(hi + 1, |b|), hi + 1)
  {
    forall s | 0 <= s < hi && s >= hi + 1 - |b|
      ensures Slot(s, |b|) != Slot(hi, |b|)
    {
      SlotsDiffer(s, hi, |b|);
    }
  }

  /** A stretch of consecutive slots holds a stretch of consecutive samples. */
  lemma Segment(b: seq<int>, all: seq<int>, lo: int, hi: nat, first: nat, pos: nat, n: nat)
    requires Holds(b, all, lo, hi) && lo <= first && first + n <= hi
    requires pos == Slot(first, |b|) && pos + n <= |b|
    ensures b[pos..pos + n] == all[first..first + n]
  {
    hide Slot;
    var x, y := b[pos..pos + n], all[first..first + n];
    forall k | 0 <= k < n
      ensures x[k] == y[k]
    {
      SlotShift(first, k, |b|);
      SlotSmall(pos + k, |b|);
      assert b[Slot(first + k, |b|)] == all[first + k];
    }
  }

  class Ring {
    const capacity: nat
    const buf: array?<int>     // null when the memory could not be obtained
    var head: nat
    var count: nat
    ghost var pushed: seq<int> // every sample stored, oldest first

    /** The newest samples stand in the slots of their sequence numbers. */
    ghost predicate Valid()
      reads this, buf
    {
      && capacity >= 1 && count == Min(|pushed|, capacity)
      && (buf == null ==> pushed == [])
      && (buf != null ==>
            && buf.Length == capacity && head == Slot(|pushed|, capacity)
            && Holds(buf[..], pushed, |pushed| - count, |pushed|))
    }

    /** What the ring represents: the newest samples pushed. */
    ghost function Contents(): seq<int>
      reads this
    {
      Newest(pushed, capacity)
    }

    constructor (capacity: nat, enoughMemory: bool)
      requires capacity >= 1
      ensures Valid() && this.capacity == capacity && pushed == []
      ensures enoughMemory <==> buf != null
      ensures buf != null ==> fresh(buf)
    {
      this.capacity := capacity;
      if enoughMemory {
        buf := new int[capacity];
      } else {
        buf := null;
      }
      head, count := 0, 0;
      pushed := [];
    }

    /** Stores a block, of which at most `capacity` samples are kept: the first ones. */
    method Push(raw: seq<int>)
      requires Valid()
      modifies this, buf
      ensures Valid()
      ensures pushed == if buf == null then [] else old(pushed) + TruncatedAll(raw[..Min(|raw|, capacity)])
    {
      if buf == null || |raw| == 0 {
        assert pushed + TruncatedAll(raw[..0]) == pushed;
        return;
      }
      hide Slot, Holds;
      var n := if |raw| > capacity then capacity else |raw|;
      Store(raw[..n]);
      SlotShift(|pushed|, n, capacity);
      head := Slot(head + n, capacity);
      if count < capacity {
        count := count + n;
        if count > capacity {
          count := capacity;
        }
      }
      pushed := pushed + TruncatedAll(raw[..n]);
    }

    /** Writes the block behind the head, over the oldest samples once the buffer is full. */
    method Store(raw: seq<int>)
      requires Valid() && buf != null && |raw| <= capacity
      modifies buf
      ensures var all := pushed + TruncatedAll(raw);
              Holds(buf[..], all, |all| - Min(|all|, capacity), |all|)
    {
      hide Slot, Holds;
      ghost var all, p := pushed + TruncatedAll(raw), |pushed|;
      HoldsLonger(buf[..], pushed, all, p - count);
      for i := 0 to |raw|
        invariant Holds(buf[..], all, p + i - Min(p + i, capacity), p + i)
      {
        SlotShift(p, i, capacity);
        StoreNext(buf[..], all, p + i - Min(p + i, capacity), p + i);
        buf[Slot(head + i, capacity)] := Truncated(raw[i]);
      }
    }

    method Count() returns (c: nat)
      requires Valid()
      ensures c == |Contents()|
    {
      c := count;
    }

    /** Copies the chunk of the contents that starts at byte `offset` into `dst`, segment by segment up
        to the end of the buffer, and returns its size in bytes. */
    method ReadChunk(offset: nat, dst: array?<int>, nbytes: nat) returns (read: nat)
      requires Valid() && dst != buf
      requires dst != null ==> nbytes / 2 <= dst.Length
      modifies dst
      ensures read == if dst == null then 0 else |Chunk(Contents(), offset, nbytes)| * 2
      ensures dst != null ==>
                var chunk := Chunk(Contents(), offset, nbytes);
                |chunk| <= dst.Length && dst[..] == chunk + old(dst[..])[|chunk|..]
    {
      if buf == null || dst == null || nbytes == 0 || offset >= count * 2 {
        return 0;
      }
      read := ReadPart(offset, dst, nbytes);
    }

    /** The read of a chunk that is not empty for want of memory or samples. */
    method ReadPart(offset: nat, dst: array<int>, nbytes: nat) returns (read: nat)
      requires Valid() && buf != null && dst != buf && nbytes / 2 <= dst.Length && offset < count * 2
      modifies dst
      ensures var chunk := Chunk(Contents(), offset, nbytes);
              && |chunk| <= dst.Length && read == |chunk| * 2
              && dst[..] == chunk + old(dst[..])[|chunk|..]
    {
      hide Slot, Holds, Newest, Chunk, Filled;
      var avail := count * 2 - offset;
      var bytes := if nbytes > avail then avail else nbytes;
      var oldestIdx := Slot(head + capacity - count, capacity);
      var sampleOffset := offset / 2;
      var startIdx := Slot(oldestIdx + sampleOffset, capacity);
      var total := bytes / 2;
      StartSlot(|pushed|, count, sampleOffset, capacity);
      FilledIsChunk(pushed, capacity, offset, nbytes, dst[..]);
      CopyOut(startIdx, |pushed| - count + sampleOffset, total, dst);
      read := total * 2;
    }

    /** Copies `total` samples from sequence number `first` on, in segments that end where the buffer
        wraps. */
    method CopyOut(startIdx: nat, ghost first: nat, total: nat, dst: array<int>)
      requires Valid() && buf != null && dst != buf && total <= dst.Length
      requires |pushed| - count <= first && first + total <= |pushed| && startIdx == Slot(first, capacity)
      modifies dst
      ensures dst[..] == Filled(pushed, old(dst[..]), first, total)
    {
      hide Slot, Holds, Filled;
      ghost var was, data := dst[..], buf[..];
      var copied := 0;
      FilledEnds(pushed, was, first);
      while copied < total
        invariant 0 <= copied <= total
        invariant dst[..] == Filled(pushed, was, first, copied)
        invariant buf[..] == data
      {
        var pos := Slot(startIdx + copied, capacity);
        SlotShift(first, copied, capacity);
        var availToEnd := capacity - pos;
        var remaining := total - copied;
        var n := if remaining < availToEnd then remaining else availToEnd;
        Segment(data, pushed, |pushed| - count, |pushed|, first + copied, pos, n);
        FilledFurther(pushed, was, first, copied, n, data[pos..pos + n]);
        CopySegment(dst, copied, buf, pos, n);
        copied := copied + n;
      }
    }
  }

  /** The destination filled from the computed position holds exactly the chunk. */
  lemma FilledIsChunk(all: seq<int>, capacity: nat, offset: nat, nbytes: nat, was: seq<int>)
    requires offset < Min(|all|, capacity) * 2 && nbytes / 2 <= |was|
    ensures var count := Min(|all|, capacity);
            var first, total := |all| - count + offset / 2, Min(nbytes, count * 2 - offset) / 2;
            var chunk := Chunk(Newest(all, capacity), offset, nbytes);
            && first + total <= |all| && total <= |was| && |chunk| == total
            && Filled(all, was, first, total) == chunk + was[|chunk|..]
  {
    var c, count := Newest(all, capacity), Min(|all|, capacity);
    var start, total := offset / 2, Min(nbytes, count * 2 - offset) / 2;
    assert |c| == count && c == all[|all| - count..];
    SliceOfSuffix(all, |all| - count, start, start + total);
  }

  lemma SliceOfSuffix(all: seq<int>, k: nat, i: nat, j: nat)
    requires k <= |all| && i <= j <= |all| - k
    ensures all[k..][i..j] == all[k + i..k + j]
  {
  }

  /** A destination after the first `copied` samples from number `first` on have been written to it. */
  function Filled(all: seq<int>, was: seq<int>, first: nat, copied: nat): seq<int>
    requires first + copied <= |all| && copied <= |was|
  {
    all[first..first + copied] + was[copied..]
  }

  lemma FilledFurther(all: seq<int>, was: seq<int>, first: nat, copied: nat, n: nat, part: seq<int>)
    requires first + copied + n <= |all| && copied + n <= |was| && part == all[first + copied..first + copied + n]
    ensures var d := Filled(all, was, first, copied);
            |d| == |was| && d[..copied] + part + d[copied + n..] == Filled(all, was, first, copied + n)
  {
  }

  lemma FilledEnds(all: seq<int>, was: seq<int>, first: nat)
    requires first <= |all|
    ensures Filled(all, was, first, 0) == was
  {
  }

  /** memcpy between two arrays. */
  method CopySegment(dst: array<int>, at: nat, src: array<int>, from: nat, n: nat)
    requires dst != src && at + n <= dst.Length && from + n <= src.Length
    modifies dst
    ensures dst[..] == old(dst[..])[..at] + src[..][from..from + n] + old(dst[..])[at + n..]
  {
    forall k | 0 <= k < n {
      dst[at + k] := src[from + k];
    }
  }

  // ----- Reading the whole ring

  function Total(sizes: seq<nat>): nat { if sizes == [] then 0 else Total(sizes[..|sizes| - 1]) + sizes[|sizes| - 1] }

  /** The offset after reads of the given sizes, each starting where the previous one ended. */
  function OffsetAfter(contents: seq<int>, sizes: seq<nat>): nat {
    if sizes == [] then 0 else
      var offset := OffsetAfter(contents, sizes[..|sizes| - 1]);
      offset + |Chunk(contents, offset, sizes[|sizes| - 1])| * 2
  }

  function ReadAll(contents: seq<int>, sizes: seq<nat>): seq<int> {
    if sizes == [] then [] else
      var prefix := sizes[..|sizes| - 1];
      ReadAll(contents, prefix) + Chunk(contents, OffsetAfter(contents, prefix), sizes[|sizes| - 1])
  }

  /** Reads at successive returned offsets concatenate, oldest first, to a prefix of the contents; when
      every size is even the prefix is as long as the sizes ask for, so enough of them read it all. */
  lemma {:induction false} ChunksConcatenate(contents: seq<int>, sizes: seq<nat>)
    ensures var all := ReadAll(contents, sizes);
            && all <= contents && OffsetAfter(contents, sizes) == |all| * 2
            && ((forall i :: 0 <= i < |sizes| ==> sizes[i] % 2 == 0) ==>
                  |all| * 2 == Min(Total(sizes), |contents| * 2))
  {
    if sizes != [] {
      var prefix := sizes[..|sizes| - 1];
      ChunksConcatenate(contents, prefix);
      ChunkExtends(contents, ReadAll(contents, prefix), sizes[|sizes| - 1]);
    }
  }

  lemma ChunkExtends(contents: seq<int>, before: seq<int>, size: nat)
    requires before <= contents
    ensures var chunk := Chunk(contents, |before| * 2, size);
            && before + chunk <= contents
            && (size % 2 == 0 ==> |before + chunk| * 2 == Min(|before| * 2 + size, |contents| * 2))
  {
    assert before == contents[..|before|];
  }

  /** A read at an even offset returns nothing exactly at the end of the contents or when it asks for
      less than one sample: an odd size of one byte stalls the reader. */
  lemma EmptyReads(contents: seq<int>, offset: nat, nbytes: nat)
    requires offset % 2 == 0
    ensures Chunk(contents, offset, nbytes) == [] <==> offset >= |contents| * 2 || nbytes < 2
  {
  }

  // ----- Reads between pushes

  datatype Op = Pushing(samples: seq<int>) | Reading(nbytes: nat)

  /** What one read returned: its samples, where in the stream they start, and how many samples of the stream
      had been displaced by then. */
  datatype Piece = Piece(first: nat, samples: seq<int>, displaced: nat)

  /** The stream pushed so far, and a reader that goes on at the offset its reads have returned. */
  datatype Session = Session(stream: seq<int>, offset: nat, pieces: seq<Piece>)

  function Displaced(stream: seq<int>, capacity: nat): nat { |stream| - Min(|stream|, capacity) }

  function Advanced(capacity: nat, s: Session, op: Op): Session {
    match op
    case Pushing(samples) => s.(stream := s.stream + samples)
    case Reading(nbytes) =>
      var chunk := Chunk(Newest(s.stream, capacity), s.offset, nbytes);
      var gone := Displaced(s.stream, capacity);
      Session(s.stream, s.offset + |chunk| * 2, s.pieces + [Piece(gone + s.offset / 2, chunk, gone)])
  }

  function After(capacity: nat, ops: seq<Op>): Session
    decreases |ops|
  {
    if ops == [] then Session([], 0, []) else Advanced(capacity, After(capacity, ops[..|ops| - 1]), ops[|ops| - 1])
  }

  /** A read returns a stretch of the stream, from the offset behind the displaced samples on. */
  lemma ChunkOfStream(stream: seq<int>, capacity: nat, offset: nat, nbytes: nat)
    requires offset % 2 == 0 && offset / 2 <= Min(|stream|, capacity)
    ensures var chunk := Chunk(Newest(stream, capacity), offset, nbytes);
            var first := Displaced(stream, capacity) + offset / 2;
            first + |chunk| <= |stream| && chunk == stream[first..first + |chunk|]
  {
    var contents, gone := Newest(stream, capacity), Displaced(stream, capacity);
    assert contents == stream[gone..];
  }

  /** Where the reader stands after its last read. */
  predicate Follows(capacity: nat, s: Session) {
    && s.offset % 2 == 0 && s.offset / 2 <= Min(|s.stream|, capacity)
    && (if s.pieces == [] then s.offset == 0
        else
          var last := s.pieces[|s.pieces| - 1];
          last.displaced <= Displaced(s.stream, capacity) && last.first + |last.samples| == last.displaced + s.offset / 2)
  }

  predicate InStream(stream: seq<int>, p: Piece) {
    p.first + |p.samples| <= |stream| && p.samples == stream[p.first..p.first + |p.samples|]
  }

  /** Piece q starts behind piece p by exactly the samples displaced between the two reads. */
  predicate SkipsDisplaced(p: Piece, q: Piece) {
    p.displaced <= q.displaced && q.first == p.first + |p.samples| + (q.displaced - p.displaced)
  }

  /** Each read returned a stretch of the stream, and the first one what was not displaced by then. */
  predicate ReadsFit(capacity: nat, s: Session) {
    && Follows(capacity, s)
    && (forall i :: 0 <= i < |s.pieces| ==> InStream(s.stream, s.pieces[i]))
    && (forall i :: 0 < i < |s.pieces| ==> SkipsDisplaced(s.pieces[i - 1], s.pieces[i]))
    && (s.pieces != [] ==> s.pieces[0].first == s.pieces[0].displaced)
  }

  lemma PushFits(capacity: nat, s: Session, samples: seq<int>)
    requires ReadsFit(capacity, s)
    ensures ReadsFit(capacity, Advanced(capacity, s, Pushing(samples)))
  {
    hide Chunk, Newest, SkipsDisplaced;
    forall i | 0 <= i < |s.pieces| ensures InStream(s.stream + samples, s.pieces[i]) {
      assert InStream(s.stream, s.pieces[i]);
    }
  }

  lemma ReadFits(capacity: nat, s: Session, nbytes: nat)
    requires ReadsFit(capacity, s)
    ensures ReadsFit(capacity, Advanced(capacity, s, Reading(nbytes)))
  {
    hide Chunk, Newest;
    ChunkOfStream(s.stream, capacity, s.offset, nbytes);
    ChunkLength(s.stream, capacity, s.offset, nbytes);
  }

  /** Over every interleaving of pushes and reads, each read returns a stretch of the stream, and two consecutive
      reads are contiguous exactly when no sample was displaced between them; otherwise exactly as many samples
      are skipped as were displaced. */
  lemma {:induction false} ReadsSkipExactlyDisplaced(capacity: nat, ops: seq<Op>)
    ensures var s := After(capacity, ops);
            && Follows(capacity, s)
            && (forall i :: 0 <= i < |s.pieces| ==> InStream(s.stream, s.pieces[i]))
            && (forall i :: 0 < i < |s.pieces| ==> SkipsDisplaced(s.pieces[i - 1], s.pieces[i]))
            && (s.pieces != [] ==> s.pieces[0].first == s.pieces[0].displaced)
  {
    AlwaysFits(capacity, ops);
  }

  lemma {:induction false} AlwaysFits(capacity: nat, ops: seq<Op>)
    ensures ReadsFit(capacity, After(capacity, ops))
    decreases |ops|
  {
    hide Advanced;
    if ops != [] {
      AlwaysFits(capacity, ops[..|ops| - 1]);
      match ops[|ops| - 1]
      case Pushing(samples) => PushFits(capacity, After(capacity, ops[..|ops| - 1]), samples);
      case Reading(nbytes) => ReadFits(capacity, After(capacity, ops[..|ops| - 1]), nbytes);
    }
  }

  lemma ChunkLength(stream: seq<int>, capacity: nat, offset: nat, nbytes: nat)
    requires offset % 2 == 0 && offset / 2 <= Min(|stream|, capacity)
    ensures var n := |Chunk(Newest(stream, capacity), offset, nbytes)|;
            (offset + n * 2) % 2 == 0 && (offset + n * 2) / 2 == offset / 2 + n <= Min(|stream|, capacity)
  {
  }
}
