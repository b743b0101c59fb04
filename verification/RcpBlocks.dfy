/**
 The loops of `source` and `sink` that move the bytes of one file (krcp.c). They justify that
 `Rcp` treats the contents of a file as one message of the announced length.
 */
module RcpBlocks {
  import opened Sequences

  const BLOCK: nat := 4096

  function Blocks(size: nat): nat {
    (size + BLOCK - 1) / BLOCK
  }

  lemma BlocksAre(size: nat, k: nat, left: nat)
    requires size == k * BLOCK + left && left < BLOCK
    ensures Blocks(size) == if left == 0 then k else k + 1
  {
  }

  // ----- Sending -----

  /** What one read puts into the buffer, and what errno is after it. */
  datatype ReadResult = ReadResult(bytes: string, errno: nat)

  /** How much the k-th read asks for. */
  function Amount(size: nat, k: nat): nat {
    if (k + 1) * BLOCK <= size then BLOCK else if k * BLOCK < size then size - k * BLOCK else 0
  }

  ghost predicate Bounded(size: nat, results: nat -> ReadResult) {
    forall k: nat :: |results(k).bytes| <= Amount(size, k)
  }

  predicate Short(size: nat, results: nat -> ReadResult, k: nat) {
    |results(k).bytes| != Amount(size, k)
  }

  /** What is sent from the k-th read on, and the error found: a short read counts as one if errno says so. */
  ghost function Sending(size: nat, results: nat -> ReadResult, k: nat, buf: string, readerr: nat): (string, nat)
    requires Bounded(size, results) && |buf| == BLOCK
    decreases size - k * BLOCK
  {
    if k * BLOCK >= size then ("", readerr)
    else
      var r := results(k);
      assert |r.bytes| <= Amount(size, k) <= BLOCK;
      var buf' := if readerr == 0 then r.bytes + buf[|r.bytes|..] else buf;
      var readerr' := if readerr == 0 && Short(size, results, k) then r.errno else readerr;
      var rest := Sending(size, results, k + 1, buf', readerr');
      (buf'[..Amount(size, k)] + rest.0, rest.1)
  }

  /** The sending loop. `results(k)` is the outcome of the k-th read; none is made after an error. */
  method SendBlocks(size: nat, results: nat -> ReadResult, stale: string) returns (sent: string, readerr: nat)
    requires Bounded(size, results) && |stale| == BLOCK
    ensures (sent, readerr) == Sending(size, results, 0, stale, 0)
  {
    sent, readerr := "", 0;
    var buf := stale;
    var i, k: nat := 0, 0;
    while i < size
      invariant i == k * BLOCK && |buf| == BLOCK
      invariant sent + Sending(size, results, k, buf, readerr).0 == Sending(size, results, 0, stale, 0).0
      invariant Sending(size, results, k, buf, readerr).1 == Sending(size, results, 0, stale, 0).1
      decreases size - i
    {
      var amt := BLOCK;
      if i + amt > size { amt := size - i; }
      if readerr == 0 {
        var r := results(k);
        assert |r.bytes| <= Amount(size, k) == amt;
        buf := r.bytes + buf[|r.bytes|..];
        if |r.bytes| != amt { readerr := r.errno; }
      }
      Regroup(sent, buf[..amt], Sending(size, results, k + 1, buf, readerr).0);
      sent := sent + buf[..amt];
      i, k := i + BLOCK, k + 1;
    }
    assert sent + "" == sent;
  }

  /** The announced number of bytes is sent in any case. */
  lemma {:induction false} SendsAnnounced(size: nat, results: nat -> ReadResult, k: nat, buf: string, readerr: nat)
    requires Bounded(size, results) && |buf| == BLOCK && k * BLOCK <= size + BLOCK
    ensures |Sending(size, results, k, buf, readerr).0| == if k * BLOCK <= size then size - k * BLOCK else 0
    decreases size - k * BLOCK
  {
    if k * BLOCK < size {
      var r := results(k);
      assert |r.bytes| <= Amount(size, k) <= BLOCK;
      var buf' := if readerr == 0 then r.bytes + buf[|r.bytes|..] else buf;
      SendsAnnounced(size, results, k + 1, buf', if readerr == 0 && Short(size, results, k) then r.errno else readerr);
    }
  }

  /** An error is reported exactly if some read falls short and sets errno. */
  lemma {:induction false} ErrorNoticed(size: nat, results: nat -> ReadResult, k: nat, buf: string)
    requires Bounded(size, results) && |buf| == BLOCK
    ensures Sending(size, results, k, buf, 0).1 != 0 <==>
            exists j: nat :: k <= j && j * BLOCK < size && Short(size, results, j) && results(j).errno != 0
    decreases size - k * BLOCK
  {
    if k * BLOCK < size {
      var r := results(k);
      assert |r.bytes| <= Amount(size, k) <= BLOCK;
      var buf' := r.bytes + buf[|r.bytes|..];
      if Short(size, results, k) && r.errno != 0 {
        ErrorStays(size, results, k + 1, buf', r.errno);
      } else {
        ErrorNoticed(size, results, k + 1, buf');
      }
    }
  }

  lemma {:induction false} ErrorStays(size: nat, results: nat -> ReadResult, k: nat, buf: string, readerr: nat)
    requires Bounded(size, results) && |buf| == BLOCK && readerr != 0
    ensures Sending(size, results, k, buf, readerr).1 == readerr
    decreases size - k * BLOCK
  {
    if k * BLOCK < size { ErrorStays(size, results, k + 1, buf, readerr); }
  }

  ghost predicate Faithful(data: string, results: nat -> ReadResult) {
    forall k: nat :: k * BLOCK < |data| ==> results(k).bytes == data[k * BLOCK..k * BLOCK + Amount(|data|, k)]
  }

  /** Reads that give the file's bytes send the file. */
  lemma {:induction false} SendsFile(data: string, results: nat -> ReadResult, k: nat, buf: string)
    requires Bounded(|data|, results) && Faithful(data, results) && |buf| == BLOCK
    ensures Sending(|data|, results, k, buf, 0) == (if k * BLOCK < |data| then data[k * BLOCK..] else "", 0)
    decreases |data| - k * BLOCK
  {
    if k * BLOCK < |data| {
      var bytes := results(k).bytes;
      var at := k * BLOCK + |bytes|;
      assert bytes == data[k * BLOCK..at] && |bytes| == Amount(|data|, k);
      var buf' := bytes + buf[|bytes|..];
      SendsFile(data, results, k + 1, buf');
      assert buf'[..|bytes|] == bytes;
      assert data[k * BLOCK..at] + data[at..] == data[k * BLOCK..];
    }
  }

  /** A file of two bytes that has lost one since: what is in the buffer is sent for it, and no error is found. */
  lemma QuietShortRead(b: char, stale: string)
    requires |stale| == BLOCK
    ensures var results := (k: nat) => if k == 0 then ReadResult([b], 0) else ReadResult("", 0);
            Bounded(2, results) && Short(2, results, 0) && Sending(2, results, 0, stale, 0) == ([b, stale[1]], 0)
  {
    var results := (k: nat) => if k == 0 then ReadResult([b], 0) else ReadResult("", 0);
    var buf := [b] + stale[1..];
    assert Sending(2, results, 1, buf, 0) == ("", 0);
    assert buf[..2] + "" == [b, stale[1]];
  }

  // ----- Receiving -----

  /** Reads exactly n bytes, in as many pieces as the stream gives. */
  method ReadFully(stream: string, n: nat) returns (bytes: string, rest: string)
    requires n <= |stream|
    ensures bytes == stream[..n] && rest == stream[n..]
  {
    bytes, rest := "", stream;
    var amt := n;
    while amt > 0
      invariant 0 <= amt <= n && bytes == stream[..n - amt] && rest == stream[n - amt..]
    {
      var j :| 1 <= j <= amt;   // a read may return fewer bytes than asked for
      bytes, rest := bytes + rest[..j], rest[j..];
      amt := amt - j;
    }
  }

  lemma BlockOf(stream: string, base: nat, amt: nat)
    requires base + amt <= |stream|
    ensures stream[base..][..amt] == stream[base..base + amt] && stream[base..][amt..] == stream[base + amt..]
    ensures stream[..base] + stream[base..base + amt] == stream[..base + amt]
  {
  }

  /** Some write before the k-th fails. */
  ghost predicate FailsBefore(writeOk: nat -> bool, k: nat) {
    exists j: nat :: j < k && !writeOk(j)
  }

  /** What has been written of the first base bytes, in k writes. */
  ghost predicate WrittenSoFar(stream: string, writeOk: nat -> bool, k: nat, base: nat, written: string, wrerr: bool)
    requires base <= |stream|
  {
    && (wrerr <==> FailsBefore(writeOk, k))
    && (if wrerr then written <= stream[..base] else written == stream[..base])
  }

  /** Writes the next amt bytes, unless a write has failed. */
  method WriteNext(stream: string, writeOk: nat -> bool, k: nat, ghost base: nat,
                   buf: string, written: string, wrerr: bool)
    returns (written': string, wrerr': bool)
    requires base + |buf| <= |stream| && buf == stream[base..base + |buf|]
    requires WrittenSoFar(stream, writeOk, k, base, written, wrerr)
    ensures WrittenSoFar(stream, writeOk, k + 1, base + |buf|, written', wrerr')
  {
    BlockOf(stream, base, |buf|);
    written', wrerr' := written, wrerr;
    if !wrerr {
      if writeOk(k) { written' := written + buf; } else { wrerr' := true; }
    }
    assert !writeOk(k) ==> FailsBefore(writeOk, k + 1);
  }

  /**
   The receiving loop: whole buffers are written as they fill, the last one after the loop.
   `writeOk(k)` says whether the k-th write succeeds; none is made after a failure.
   */
  method ReceiveBlocks(stream: string, size: nat, writeOk: nat -> bool)
    returns (written: string, rest: string, wrerr: bool)
    requires size <= |stream|
    ensures rest == stream[size..]
    ensures wrerr <==> FailsBefore(writeOk, Blocks(size))
    ensures if wrerr then written <= stream[..size] else written == stream[..size]
  {
    written, rest, wrerr := "", stream, false;
    var buf := "";
    var i, k: nat := 0, 0;
    ghost var base := 0;   // the bytes of the buffers done with
    while i < size
      invariant base == k * BLOCK && base + |buf| <= size
      invariant if buf == "" then i == base else |buf| < BLOCK && base + |buf| == size < i
      invariant buf == stream[base..base + |buf|] && rest == stream[base + |buf|..]
      invariant WrittenSoFar(stream, writeOk, k, base, written, wrerr)
    {
      var amt := BLOCK;
      if i + amt > size { amt := size - i; }
      BlockOf(stream, base, amt);
      buf, rest := ReadFully(rest, amt);
      if |buf| == BLOCK {
        written, wrerr := WriteNext(stream, writeOk, k, base, buf, written, wrerr);
        buf, k, base := "", k + 1, base + BLOCK;
      }
      i := i + BLOCK;
    }
    BlocksAre(size, k, |buf|);
    if buf != "" {
      written, wrerr := WriteNext(stream, writeOk, k, base, buf, written, wrerr);
    }
  }
}
