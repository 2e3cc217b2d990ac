/** The streaming block buffer of services/engine/src/stream_progress_thread.cpp: bytes that arrive in
    chunks of any length are handed to the installer in blocks of BUFFER_SIZE - 1 bytes, with one
    shorter block where the package ends. */
module StreamProgress {

  const BUFFER_SIZE := 50 * 1024
  const BLOCK := BUFFER_SIZE - 1
  const WRITE_ERROR := 0xFFFF_FFFF_FFFF_FFFF // -1 returned as a size_t

  type Byte = b: int | 0 <= b < 256
  type Bytes = seq<Byte>

  // ---------- How one byte string is cut, independently of any chunking ----------

  /** The full blocks of s, in order. */
  function Full(s: Bytes): seq<Bytes> {
    if |s| < BLOCK then [] else [s[..BLOCK]] + Full(s[BLOCK..])
  }

  /** The bytes after the last full block. */
  function Rest(s: Bytes): Bytes {
    if |s| < BLOCK then s else Rest(s[BLOCK..])
  }

  /** All blocks of s when atEnd says that s ends where the package ends. */
  function Cut(s: Bytes, atEnd: bool): seq<Bytes> {
    Full(s) + if atEnd && Rest(s) != [] then [Rest(s)] else []
  }

  /** What stays in the buffer. */
  function Kept(s: Bytes, atEnd: bool): Bytes {
    if atEnd then [] else Rest(s)
  }

  function Concat(parts: seq<Bytes>): Bytes {
    if parts == [] then [] else parts[0] + Concat(parts[1..])
  }

  // ---------- One call of WriteFunc, and a whole transfer ----------

  /** done is downloadedSize_, calls counts the calls of ProcessStreamData, delivered holds the blocks
      that it took. */
  datatype Stream = Stream(pending: Bytes, done: int, total: int, delivered: seq<Bytes>, calls: nat)

  /** How many of the next n calls succeed before one fails; accepts(i) is the outcome of call i. */
  function Accepted(n: nat, calls: nat, accepts: nat -> bool): (k: nat)
    ensures k <= n
    ensures forall i | calls <= i < calls + k :: accepts(i)
    ensures k < n ==> !accepts(calls + k)
    decreases n
  {
    if n == 0 || !accepts(calls) then 0 else 1 + Accepted(n - 1, calls + 1, accepts)
  }

  /** The state and success flag after one chunk. A refused block stays in the buffer and the byte
      count does not advance. */
  function Write(st: Stream, chunk: Bytes, accepts: nat -> bool): (Stream, bool) {
    if chunk == [] then (st, true) else
      var atEnd := st.done + |chunk| == st.total;
      var want := Cut(st.pending + chunk, atEnd);
      var k := Accepted(|want|, st.calls, accepts);
      if k == |want| then
        (Stream(Kept(st.pending + chunk, atEnd), st.done + |chunk|, st.total, st.delivered + want, st.calls + k),
         true)
      else
        (Stream(want[k], st.done, st.total, st.delivered + want[..k], st.calls + k + 1), false)
  }

  /** curl calls the write function once a chunk and stops the transfer when it reports an error. */
  function WriteAll(st: Stream, chunks: seq<Bytes>, accepts: nat -> bool): (Stream, bool)
    decreases |chunks|
  {
    if chunks == [] then (st, true) else
      var (next, ok) := Write(st, chunks[0], accepts);
      if ok then WriteAll(next, chunks[1..], accepts) else (next, false)
  }

  // ---------- Laws of the cut ----------

  lemma {:induction false} RestLength(s: Bytes)
    ensures |Rest(s)| == |s| % BLOCK
    ensures |Full(s)| == |s| / BLOCK
  {
    if |s| >= BLOCK {
      RestLength(s[BLOCK..]);
    }
  }

  lemma {:induction false} FullShape(s: Bytes)
    ensures |Rest(s)| < BLOCK
    ensures forall b | b in Full(s) :: |b| == BLOCK
  {
    if |s| >= BLOCK {
      FullShape(s[BLOCK..]);
    }
  }

  lemma {:induction false} FullAppend(a: Bytes, b: Bytes)
    ensures Full(a + b) == Full(a) + Full(Rest(a) + b)
    ensures Rest(a + b) == Rest(Rest(a) + b)
  {
    if |a| >= BLOCK {
      assert (a + b)[..BLOCK] == a[..BLOCK];
      assert (a + b)[BLOCK..] == a[BLOCK..] + b;
      FullAppend(a[BLOCK..], b);
    }
  }

  lemma {:induction false} ConcatAppend(a: seq<Bytes>, b: seq<Bytes>)
    ensures Concat(a + b) == Concat(a) + Concat(b)
  {
    if a == [] {
      assert a + b == b;
    } else {
      assert (a + b)[1..] == a[1..] + b;
      ConcatAppend(a[1..], b);
    }
  }

  lemma {:induction false} FullConserves(s: Bytes)
    ensures Concat(Full(s)) + Rest(s) == s
  {
    if |s| >= BLOCK {
      FullConserves(s[BLOCK..]);
      assert Full(s)[1..] == Full(s[BLOCK..]);
      calc {
        Concat(Full(s)) + Rest(s);
        s[..BLOCK] + (Concat(Full(s[BLOCK..])) + Rest(s[BLOCK..]));
        s[..BLOCK] + s[BLOCK..];
        s;
      }
    }
  }

  /** Conservation: no byte is lost, repeated or reordered by cutting. */
  lemma CutConserves(s: Bytes, atEnd: bool)
    ensures Concat(Cut(s, atEnd)) + Kept(s, atEnd) == s
  {
    FullConserves(s);
    if atEnd && Rest(s) != [] {
      ConcatAppend(Full(s), [Rest(s)]);
      assert [Rest(s)][1..] == [];
      assert Concat([Rest(s)]) == Rest(s);
    } else {
      assert Cut(s, atEnd) == Full(s);
    }
  }

  /** Every block is full except, at the end of the package, one last shorter and non-empty block. */
  lemma CutShape(s: Bytes, atEnd: bool, i: nat)
    requires i < |Cut(s, atEnd)|
    ensures i + 1 < |Cut(s, atEnd)| || !atEnd ==> |Cut(s, atEnd)[i]| == BLOCK
    ensures 0 < |Cut(s, atEnd)[i]| <= BLOCK
  {
    FullShape(s);
    if i < |Full(s)| {
      assert Cut(s, atEnd)[i] == Full(s)[i];
      assert Full(s)[i] in Full(s);
    }
  }

  /** Cutting what is left of one string after more bytes arrive continues the cut of the whole. */
  lemma CutAppend(a: Bytes, b: Bytes, atEnd: bool)
    ensures Cut(a + b, atEnd) == Full(a) + Cut(Rest(a) + b, atEnd)
    ensures Kept(a + b, atEnd) == Kept(Rest(a) + b, atEnd)
  {
    FullAppend(a, b);
  }

  // ---------- Whole transfers ----------

  /** How a transfer that began at byte start, with base already delivered after calls calls, stands
      when got has been received and every block so far was taken. */
  ghost predicate Follows(st: Stream, got: Bytes, start: int, base: seq<Bytes>, calls: nat, accepts: nat -> bool) {
    var atEnd := start + |got| == st.total;
    var want := Cut(got, atEnd);
    && st.done == start + |got|
    && st.pending == Kept(got, atEnd)
    && st.delivered == base + want
    && st.calls == calls + |want|
    && Accepted(|want|, calls, accepts) == |want|
  }

  /** How it stands at the end, when all has been offered: the installer holds the blocks of the cut of
      all up to the first that it refused, and the buffer what is left over or the refused block. */
  ghost predicate Ends(last: Stream, ok: bool, all: Bytes, start: int, base: seq<Bytes>, calls: nat,
                       accepts: nat -> bool) {
    var want := Cut(all, start + |all| == last.total);
    var k := Accepted(|want|, calls, accepts);
    && ok == (k == |want|)
    && last.delivered == base + want[..k]
    && last.pending == (if ok then Kept(all, start + |all| == last.total) else want[k])
    && last.calls == calls + (if ok then k else k + 1)
    && (ok ==> last.done == start + |all|)
  }

  /** A chunk c after got: the blocks of got + c are those of got and then those of this call. */
  lemma FollowsAppend(st: Stream, got: Bytes, start: int, base: seq<Bytes>, calls: nat, c: Bytes, accepts: nat -> bool)
    requires Follows(st, got, start, base, calls, accepts)
    requires c != [] && st.done + |c| <= st.total
    ensures var atEnd := st.done + |c| == st.total;
            var want := Cut(st.pending + c, atEnd);
            && st.pending == Rest(got) && st.delivered == base + Full(got) && st.calls == calls + |Full(got)|
            && Cut(got + c, atEnd) == Full(got) + want
            && Kept(got + c, atEnd) == Kept(st.pending + c, atEnd)
            && Accepted(|Full(got)| + |want|, calls, accepts)
               == |Full(got)| + Accepted(|want|, st.calls, accepts)
  {
    var atEnd := st.done + |c| == st.total;
    assert Cut(got, start + |got| == st.total) == Full(got);
    CutAppend(got, c, atEnd);
  }

  lemma WriteTaken(st: Stream, got: Bytes, start: int, base: seq<Bytes>, calls: nat, c: Bytes, accepts: nat -> bool)
    requires Follows(st, got, start, base, calls, accepts)
    requires c != [] && st.done + |c| <= st.total
    requires Write(st, c, accepts).1
    ensures Follows(Write(st, c, accepts).0, got + c, start, base, calls, accepts)
  {
    FollowsAppend(st, got, start, base, calls, c, accepts);
    var want := Cut(st.pending + c, st.done + |c| == st.total);
    assert base + (Full(got) + want) == (base + Full(got)) + want;
  }

  lemma PrefixOfSum<T>(base: seq<T>, full: seq<T>, want: seq<T>, k: nat)
    requires k < |want|
    ensures base + (full + want)[..|full| + k] == (base + full) + want[..k]
    ensures (full + want)[|full| + k] == want[k]
  {
  }

  lemma WriteStops(st: Stream, c: Bytes, accepts: nat -> bool)
    requires c != [] && !Write(st, c, accepts).1
    ensures var want := Cut(st.pending + c, st.done + |c| == st.total);
            var k := Accepted(|want|, st.calls, accepts);
            && k < |want|
            && Write(st, c, accepts).0
               == Stream(want[k], st.done, st.total, st.delivered + want[..k], st.calls + k + 1)
  {
  }

  lemma RefusedHere(st: Stream, got: Bytes, start: int, base: seq<Bytes>, calls: nat, c: Bytes, accepts: nat -> bool)
    requires Follows(st, got, start, base, calls, accepts)
    requires c != [] && st.done + |c| <= st.total
    requires !Write(st, c, accepts).1
    ensures var blocks := Cut(got + c, st.done + |c| == st.total);
            var k := Accepted(|blocks|, calls, accepts);
            && k < |blocks|
            && Write(st, c, accepts).0 == Stream(blocks[k], st.done, st.total, base + blocks[..k], calls + k + 1)
  {
    FollowsAppend(st, got, start, base, calls, c, accepts);
    WriteStops(st, c, accepts);
    var want := Cut(st.pending + c, st.done + |c| == st.total);
    PrefixOfSum(base, Full(got), want, Accepted(|want|, st.calls, accepts));
  }

  /** A refusal while cutting a prefix of the stream is the refusal of the whole stream's cut. */
  lemma RefusedEarly(a: Bytes, more: Bytes, atEnd: bool, allAtEnd: bool, calls: nat, accepts: nat -> bool)
    requires atEnd ==> more == [] && allAtEnd
    requires allAtEnd && more == [] ==> atEnd
    requires Accepted(|Cut(a, atEnd)|, calls, accepts) < |Cut(a, atEnd)|
    ensures var whole := Cut(a + more, allAtEnd);
            var k := Accepted(|Cut(a, atEnd)|, calls, accepts);
            && Accepted(|whole|, calls, accepts) == k
            && k < |whole|
            && whole[..k] == Cut(a, atEnd)[..k]
            && whole[k] == Cut(a, atEnd)[k]
  {
    if more == [] {
      assert a + more == a;
    } else {
      CutAppend(a, more, allAtEnd);
    }
  }

  lemma RefusedIsEnd(last: Stream, a: Bytes, more: Bytes, start: int, base: seq<Bytes>, calls: nat,
                     accepts: nat -> bool)
    requires start + |a| + |more| <= last.total
    requires var blocks := Cut(a, start + |a| == last.total);
             var k := Accepted(|blocks|, calls, accepts);
             && k < |blocks| && last.pending == blocks[k] && last.delivered == base + blocks[..k]
             && last.calls == calls + k + 1
    ensures Ends(last, false, a + more, start, base, calls, accepts)
  {
    RefusedEarly(a, more, start + |a| == last.total, start + |a + more| == last.total, calls, accepts);
  }

  lemma WriteRefused(st: Stream, got: Bytes, start: int, base: seq<Bytes>, calls: nat, c: Bytes, more: Bytes,
                     accepts: nat -> bool)
    requires Follows(st, got, start, base, calls, accepts)
    requires c != [] && st.done + |c| + |more| <= st.total
    requires !Write(st, c, accepts).1
    ensures Ends(Write(st, c, accepts).0, false, got + c + more, start, base, calls, accepts)
  {
    RefusedHere(st, got, start, base, calls, c, accepts);
    RefusedIsEnd(Write(st, c, accepts).0, got + c, more, start, base, calls, accepts);
  }

  lemma {:induction false} TransferFrom(st: Stream, got: Bytes, start: int, base: seq<Bytes>, calls: nat,
                                        chunks: seq<Bytes>, accepts: nat -> bool)
    requires Follows(st, got, start, base, calls, accepts)
    requires st.done + |Concat(chunks)| <= st.total
    ensures var (last, ok) := WriteAll(st, chunks, accepts);
            Ends(last, ok, got + Concat(chunks), start, base, calls, accepts) && last.total == st.total
    decreases |chunks|
  {
    if chunks == [] {
      assert got + Concat(chunks) == got;
    } else {
      var c := chunks[0];
      var more := Concat(chunks[1..]);
      assert got + Concat(chunks) == got + c + more;
      if c == [] {
        assert got + c == got;
        TransferFrom(st, got, start, base, calls, chunks[1..], accepts);
      } else if Write(st, c, accepts).1 {
        WriteTaken(st, got, start, base, calls, c, accepts);
        TransferFrom(Write(st, c, accepts).0, got + c, start, base, calls, chunks[1..], accepts);
      } else {
        WriteRefused(st, got, start, base, calls, c, more, accepts);
      }
    }
  }

  /** The stream law, from StartDownload on: delivered blocks and buffer are a function of the bytes and the
      installer's answers alone. */
  lemma TransferLaw(st: Stream, chunks: seq<Bytes>, accepts: nat -> bool)
    requires st.pending == []
    requires st.done + |Concat(chunks)| <= st.total
    ensures var (last, ok) := WriteAll(st, chunks, accepts);
            Ends(last, ok, Concat(chunks), st.done, st.delivered, st.calls, accepts) && last.total == st.total
  {
    assert st.delivered + Cut([], st.done == st.total) == st.delivered;
    TransferFrom(st, [], st.done, st.delivered, st.calls, chunks, accepts);
    assert [] + Concat(chunks) == Concat(chunks);
  }

  /** Chunking independence: two ways of splitting one byte stream deliver the same blocks with the same number
      of calls and leave the same buffer, for every behaviour of the installer. The byte count is the same too
      when all blocks are taken; after a refusal it is the end of the last whole chunk. */
  lemma {:induction false} ChunkingIndependence(st: Stream, a: seq<Bytes>, b: seq<Bytes>, accepts: nat -> bool)
    requires st.pending == []
    requires Concat(a) == Concat(b)
    requires st.done + |Concat(a)| <= st.total
    ensures WriteAll(st, a, accepts).1 == WriteAll(st, b, accepts).1
    ensures WriteAll(st, a, accepts).0.delivered == WriteAll(st, b, accepts).0.delivered
    ensures WriteAll(st, a, accepts).0.pending == WriteAll(st, b, accepts).0.pending
    ensures WriteAll(st, a, accepts).0.calls == WriteAll(st, b, accepts).0.calls
    ensures WriteAll(st, a, accepts).1 ==> WriteAll(st, a, accepts).0.done == WriteAll(st, b, accepts).0.done
  {
    TransferLaw(st, a, accepts);
    TransferLaw(st, b, accepts);
  }

  lemma EndsConserves(last: Stream, ok: bool, all: Bytes, start: int, calls: nat, accepts: nat -> bool)
    requires Ends(last, ok, all, start, [], calls, accepts)
    requires forall i :: accepts(i)
    ensures ok && Concat(last.delivered) + last.pending == all
    ensures last.done != last.total ==> |last.pending| == (last.done - start) % BLOCK
    ensures last.done == last.total ==> last.pending == []
  {
    var atEnd := start + |all| == last.total;
    var want := Cut(all, atEnd);
    assert [] + want[..|want|] == want;
    CutConserves(all, atEnd);
    RestLength(all);
  }

  /** Conservation between calls, while the installer takes every block: blocks and buffer together
      hold all bytes received; below the total the buffer length is the count modulo the block length,
      and at the total nothing is left. */
  lemma TransferConserves(st: Stream, chunks: seq<Bytes>, accepts: nat -> bool)
    requires st.pending == [] && st.delivered == []
    requires st.done + |Concat(chunks)| <= st.total
    requires forall i :: accepts(i)
    ensures var (last, ok) := WriteAll(st, chunks, accepts);
            && ok
            && Concat(last.delivered) + last.pending == Concat(chunks)
            && (last.done < st.total ==> |last.pending| == (last.done - st.done) % BLOCK)
            && (last.done == st.total ==> last.pending == [])
  {
    TransferLaw(st, chunks, accepts);
    var last := WriteAll(st, chunks, accepts).0;
    EndsConserves(last, WriteAll(st, chunks, accepts).1, Concat(chunks), st.done, st.calls, accepts);
  }

  // ---------- Inside one call ----------

  /** The blocks that a call with chunk is to hand over. */
  ghost function Wanted(st: Stream, chunk: Bytes): seq<Bytes> {
    if chunk == [] then [] else Cut(st.pending + chunk, st.done + |chunk| == st.total)
  }

  /** The copy loop after processed bytes and k accepted blocks, with buf in the buffer: what is in hand
      will be cut into exactly the blocks that are still missing. */
  ghost predicate Partway(st: Stream, chunk: Bytes, processed: nat, buf: Bytes, k: nat, accepts: nat -> bool) {
    var atEnd := st.done + |chunk| == st.total;
    && processed <= |chunk|
    && k <= |Wanted(st, chunk)|
    && (forall i | st.calls <= i < st.calls + k :: accepts(i))
    && if chunk == [] then buf == st.pending else
         && Wanted(st, chunk)[k..] == Cut(buf + chunk[processed..], atEnd)
         && Kept(st.pending + chunk, atEnd) == Kept(buf + chunk[processed..], atEnd)
         && (processed == |chunk| ==> |buf| < BLOCK && (atEnd ==> buf == []))
  }

  lemma PartwayStarts(st: Stream, chunk: Bytes, accepts: nat -> bool)
    requires |st.pending| <= BLOCK
    ensures Partway(st, chunk, 0, st.pending, 0, accepts)
    ensures st.delivered + Wanted(st, chunk)[..0] == st.delivered
  {
    assert chunk[0..] == chunk;
  }

  lemma Regroup(buf: Bytes, chunk: Bytes, processed: nat, n: nat)
    requires processed + n <= |chunk|
    ensures buf + chunk[processed..] == (buf + chunk[processed..processed + n]) + chunk[processed + n..]
  {
  }

  /** The state after k accepted blocks, before downloadedSize_ is advanced. */
  ghost function Reached(st: Stream, chunk: Bytes, buf: Bytes, k: nat): Stream
    requires k <= |Wanted(st, chunk)|
  {
    Stream(buf, st.done, st.total, st.delivered + Wanted(st, chunk)[..k], st.calls + k)
  }

  function Copied(buf: Bytes, chunk: Bytes, processed: nat): (n: nat)
    requires |buf| <= BLOCK && processed <= |chunk|
    ensures |buf| + n == BLOCK || (|buf| + n < BLOCK && processed + n == |chunk|)
    ensures processed + n <= |chunk|
  {
    if BLOCK - |buf| < |chunk| - processed then BLOCK - |buf| else |chunk| - processed
  }

  /** One pass of the copy loop: copy what fits, hand the block over if it is full or ends the package. */
  ghost function Pass(st: Stream, chunk: Bytes, processed: nat, accepts: nat -> bool): (Stream, bool)
    requires |st.pending| <= BLOCK && processed <= |chunk|
  {
    var n := Copied(st.pending, chunk, processed);
    var held := st.pending + chunk[processed..processed + n];
    if |held| < BLOCK && st.done + processed + n != st.total then
      (st.(pending := held), true)
    else if accepts(st.calls) then
      (st.(pending := [], delivered := st.delivered + [held], calls := st.calls + 1), true)
    else
      (st.(pending := held, calls := st.calls + 1), false)
  }

  /** A pass that fills no block. */
  lemma PartwayCopies(st: Stream, chunk: Bytes, processed: nat, buf: Bytes, n: nat, k: nat, accepts: nat -> bool)
    requires Partway(st, chunk, processed, buf, k, accepts)
    requires processed < |chunk| && |buf| <= BLOCK && n == Copied(buf, chunk, processed)
    requires |buf| + n < BLOCK && st.done + processed + n != st.total
    ensures Partway(st, chunk, processed + n, buf + chunk[processed..processed + n], k, accepts)
  {
    Regroup(buf, chunk, processed, n);
  }

  /** A pass that hands over a block: it is the next of those still wanted. */
  lemma PartwayFlushes(st: Stream, chunk: Bytes, processed: nat, buf: Bytes, n: nat, k: nat, accepts: nat -> bool)
    requires Partway(st, chunk, processed, buf, k, accepts)
    requires processed < |chunk| && |buf| <= BLOCK && n == Copied(buf, chunk, processed)
    requires |buf| + n == BLOCK || st.done + processed + n == st.total
    ensures k < |Wanted(st, chunk)| && Wanted(st, chunk)[k] == buf + chunk[processed..processed + n]
    ensures accepts(st.calls + k) ==> Partway(st, chunk, processed + n, [], k + 1, accepts)
    ensures !accepts(st.calls + k) ==> Accepted(|Wanted(st, chunk)|, st.calls, accepts) == k
  {
    var atEnd := st.done + |chunk| == st.total;
    var want := Wanted(st, chunk);
    Regroup(buf, chunk, processed, n);
    assert want[k] == want[k..][0] && want[k + 1..] == want[k..][1..];
    assert [] + chunk[processed + n..] == chunk[processed + n..];
  }

  lemma StepCopies(st: Stream, chunk: Bytes, processed: nat, buf: Bytes, n: nat, k: nat, accepts: nat -> bool)
    requires k <= |Wanted(st, chunk)| && processed <= |chunk| && |buf| <= BLOCK && n == Copied(buf, chunk, processed)
    requires |buf| + n < BLOCK && st.done + processed + n != st.total
    ensures Pass(Reached(st, chunk, buf, k), chunk, processed, accepts)
            == (Reached(st, chunk, buf + chunk[processed..processed + n], k), true)
  {
  }

  lemma StepFlushes(st: Stream, chunk: Bytes, processed: nat, buf: Bytes, n: nat, k: nat, accepts: nat -> bool)
    requires k < |Wanted(st, chunk)| && processed <= |chunk| && |buf| <= BLOCK && n == Copied(buf, chunk, processed)
    requires |buf| + n == BLOCK || st.done + processed + n == st.total
    requires Wanted(st, chunk)[k] == buf + chunk[processed..processed + n] && accepts(st.calls + k)
    ensures Pass(Reached(st, chunk, buf, k), chunk, processed, accepts) == (Reached(st, chunk, [], k + 1), true)
  {
    var want := Wanted(st, chunk);
    assert st.delivered + want[..k + 1] == st.delivered + want[..k] + [want[k]];
  }

  lemma StepRefused(st: Stream, chunk: Bytes, processed: nat, buf: Bytes, n: nat, k: nat, accepts: nat -> bool)
    requires k < |Wanted(st, chunk)| && processed < |chunk| && |buf| <= BLOCK && n == Copied(buf, chunk, processed)
    requires |buf| + n == BLOCK || st.done + processed + n == st.total
    requires Wanted(st, chunk)[k] == buf + chunk[processed..processed + n] && !accepts(st.calls + k)
    requires Accepted(|Wanted(st, chunk)|, st.calls, accepts) == k
    ensures Pass(Reached(st, chunk, buf, k), chunk, processed, accepts) == (Write(st, chunk, accepts).0, false)
    ensures !Write(st, chunk, accepts).1
  {
  }

  /** One pass keeps the loop on course, and a refused block is the one that Write reports. */
  lemma PartwayStep(st: Stream, chunk: Bytes, processed: nat, buf: Bytes, n: nat, k: nat, accepts: nat -> bool)
    requires Partway(st, chunk, processed, buf, k, accepts)
    requires processed < |chunk| && |buf| <= BLOCK && n == Copied(buf, chunk, processed)
    ensures var (next, taken) := Pass(Reached(st, chunk, buf, k), chunk, processed, accepts);
            var k' := if |buf| + n == BLOCK || st.done + processed + n == st.total then k + 1 else k;
            && (taken ==> Partway(st, chunk, processed + n, next.pending, k', accepts)
                          && next == Reached(st, chunk, next.pending, k'))
            && (!taken ==> Write(st, chunk, accepts) == (next, false))
  {
    if |buf| + n < BLOCK && st.done + processed + n != st.total {
      PartwayCopies(st, chunk, processed, buf, n, k, accepts);
      StepCopies(st, chunk, processed, buf, n, k, accepts);
    } else {
      PartwayFlushes(st, chunk, processed, buf, n, k, accepts);
      if accepts(st.calls + k) {
        StepFlushes(st, chunk, processed, buf, n, k, accepts);
      } else {
        StepRefused(st, chunk, processed, buf, n, k, accepts);
      }
    }
  }

  lemma PartwayEnds(st: Stream, chunk: Bytes, buf: Bytes, k: nat, accepts: nat -> bool)
    requires Partway(st, chunk, |chunk|, buf, k, accepts)
    ensures Write(st, chunk, accepts)
            == (Stream(buf, st.done + |chunk|, st.total, st.delivered + Wanted(st, chunk)[..k], st.calls + k), true)
  {
    if chunk == [] {
      assert st.delivered + Wanted(st, chunk)[..k] == st.delivered;
      return;
    }
    assert buf + chunk[|chunk|..] == buf;
    assert Wanted(st, chunk)[..k] == Wanted(st, chunk);
  }

  // ---------- The code ----------

  /** SysInstallerKitsImpl as the writer sees it: each call takes the block or refuses it. */
  class SysInstaller {
    var blocks: seq<Bytes>
    var calls: nat
    const accepts: nat -> bool

    constructor (accepts: nat -> bool)
      ensures this.accepts == accepts && blocks == [] && calls == 0
    {
      this.accepts := accepts;
      blocks, calls := [], 0;
    }

    method ProcessStreamData(data: array<Byte>, length: nat) returns (ret: int)
      requires length <= data.Length
      modifies this
      ensures calls == old(calls) + 1
      ensures (ret == 0) == accepts(old(calls))
      ensures blocks == if ret == 0 then old(blocks) + [data[..length]] else old(blocks)
    {
      ret := if accepts(calls) then 0 else -1;
      if ret == 0 {
        blocks := blocks + [data[..length]];
      }
      calls := calls + 1;
    }
  }

  class StreamProgressThread {
    const buffer: array<Byte>
    var bufferPos: nat
    var totalFileSize: int
    var downloadedSize: int
    const installer: SysInstaller

    /** The unused part of the buffer is always zero. */
    ghost predicate Valid()
      reads this, buffer
    {
      && buffer.Length == BUFFER_SIZE
      && bufferPos <= BLOCK
      && forall i | bufferPos <= i < BUFFER_SIZE :: buffer[i] == 0
    }

    ghost function View(): Stream
      requires Valid()
      reads this, buffer, installer
    {
      Stream(buffer[..bufferPos], downloadedSize, totalFileSize, installer.blocks, installer.calls)
    }

    constructor (installer: SysInstaller)
      ensures Valid() && fresh(buffer) && this.installer == installer
      ensures View() == Stream([], 0, 0, installer.blocks, installer.calls)
    {
      this.installer := installer;
      buffer := new Byte[BUFFER_SIZE](_ => 0);
      bufferPos, totalFileSize, downloadedSize := 0, 0, 0;
    }

    method StartDownload(size: int, recordPoint: int)
      requires Valid()
      modifies this, buffer
      ensures Valid()
      ensures View() == Stream([], recordPoint, size, installer.blocks, installer.calls)
    {
      downloadedSize := recordPoint;
      totalFileSize := size;
      bufferPos := 0;
      Clear();
    }

    method Clear()
      modifies buffer
      ensures forall i | 0 <= i < buffer.Length :: buffer[i] == 0
    {
      forall i | 0 <= i < buffer.Length {
        buffer[i] := 0;
      }
    }

    /** The buffer is flushed when it is full and when the chunk ends where the package ends. The
        comparison with the total is between unsigned 64-bit values in the source; both sides differ by
        less than 2^64, so it is equality of the numbers. */
    method WriteFunc(chunk: Bytes) returns (r: nat)
      requires Valid()
      modifies this, buffer, installer
      ensures Valid()
      ensures var (next, ok) := Write(old(View()), chunk, installer.accepts);
              View() == next && r == if ok then |chunk| else WRITE_ERROR
    {
      ghost var st := View();
      ghost var k := 0;
      var processed := 0;
      PartwayStarts(st, chunk, installer.accepts);
      while processed < |chunk|
        invariant Valid() && processed <= |chunk|
        invariant Partway(st, chunk, processed, View().pending, k, installer.accepts)
        invariant View() == Reached(st, chunk, View().pending, k)
        decreases |chunk| - processed, bufferPos
      {
        ghost var held := View().pending;
        var n, taken := CopyAndFlush(chunk, processed);
        PartwayStep(st, chunk, processed, held, n, k, installer.accepts);
        if !taken {
          return WRITE_ERROR;
        }
        processed := processed + n;
        k := if |held| + n == BLOCK || st.done + processed == st.total then k + 1 else k;
      }
      PartwayEnds(st, chunk, View().pending, k, installer.accepts);
      downloadedSize := downloadedSize + |chunk|;
      return |chunk|;
    }

    /** One pass of the copy loop. */
    method CopyAndFlush(chunk: Bytes, processed: nat) returns (n: nat, taken: bool)
      requires Valid() && processed < |chunk|
      modifies this`bufferPos, buffer, installer
      ensures Valid() && n == Copied(old(View()).pending, chunk, processed)
      ensures (View(), taken) == Pass(old(View()), chunk, processed, installer.accepts)
    {
      var spaceLeft := BUFFER_SIZE - bufferPos - 1;
      n := if spaceLeft < |chunk| - processed then spaceLeft else |chunk| - processed;
      CopyIn(chunk, processed, n);
      taken := true;
      if bufferPos == BUFFER_SIZE - 1 || downloadedSize + processed + n == totalFileSize {
        taken := Flush();
      }
    }

    /** memcpy_s into the free part of the buffer. */
    method CopyIn(chunk: Bytes, from: nat, n: nat)
      requires Valid() && from + n <= |chunk| && bufferPos + n <= BLOCK
      modifies this`bufferPos, buffer
      ensures Valid() && bufferPos == old(bufferPos) + n
      ensures buffer[..bufferPos] == old(buffer[..bufferPos]) + chunk[from..from + n]
    {
      forall i | 0 <= i < n {
        buffer[bufferPos + i] := chunk[from + i];
      }
      bufferPos := bufferPos + n;
    }

    /** Hands the buffered block to the installer and, when it is taken, empties the buffer. */
    method Flush() returns (taken: bool)
      requires Valid()
      modifies this`bufferPos, buffer, installer
      ensures Valid()
      ensures taken == installer.accepts(old(installer.calls)) && installer.calls == old(installer.calls) + 1
      ensures taken ==> bufferPos == 0 && installer.blocks == old(installer.blocks + [buffer[..bufferPos]])
      ensures !taken ==> buffer[..bufferPos] == old(buffer[..bufferPos]) && installer.blocks == old(installer.blocks)
    {
      var ret := installer.ProcessStreamData(buffer, bufferPos);
      taken := ret == 0;
      if taken {
        Clear();
        bufferPos := 0;
      }
    }

    /** The transfer as curl drives it. With TransferLaw, the blocks at the installer depend on the
        bytes only. */
    method DownloadFile(chunks: seq<Bytes>) returns (ok: bool)
      requires Valid()
      requires |Concat(chunks)| < WRITE_ERROR
      modifies this, buffer, installer
      ensures Valid()
      ensures (View(), ok) == WriteAll(old(View()), chunks, installer.accepts)
    {
      var i := 0;
      while i < |chunks|
        invariant Valid() && i <= |chunks|
        invariant |Concat(chunks[i..])| < WRITE_ERROR
        invariant WriteAll(View(), chunks[i..], installer.accepts)
                  == WriteAll(old(View()), chunks, installer.accepts)
      {
        assert chunks[i..][0] == chunks[i] && chunks[i..][1..] == chunks[i + 1..];
        var r := WriteFunc(chunks[i]);
        if r != |chunks[i]| {
          return false;
        }
        i := i + 1;
      }
      return true;
    }
  }
}
