/**
 The encrypted stream of the Kerberos r-commands (kcmd.c): `v5_des_write` puts each buffer
 into one packet, `v5_des_read` opens one packet at a time and keeps what the caller has no
 room for. One direction of the stream, with both its ends.
 */
module Kcmd {
  import opened Bytes

  type Ivec = seq<byte>

  const RCMD_BUFSIZ: nat := 5120
  const BUFFER: nat := 2 * RCMD_BUFSIZ

  /**
   The cipher: encryption and decryption under an initial vector, each giving the next
   vector, and the length of a ciphertext.
   */
  datatype Cipher = Cipher(
    enc: (Ivec, seq<byte>) -> (seq<byte>, Ivec),
    dec: (Ivec, seq<byte>) -> (seq<byte>, Ivec),
    length: nat -> nat)

  /** Decryption undoes encryption, up to padding, and both move the vector alike. */
  ghost predicate Sound(c: Cipher) {
    && (forall iv, p :: |c.enc(iv, p).0| == c.length(|p|))
    && (forall iv, p :: p <= c.dec(iv, c.enc(iv, p).0).0 && c.dec(iv, c.enc(iv, p).0).1 == c.enc(iv, p).1)
    && (forall n: nat :: n <= c.length(n) && 0 < c.length(n))
  }

  // ----- Lengths -----

  function Length4(n: nat): (s: seq<byte>)
    ensures |s| == 4
  {
    [n / 0x100_0000 % 256, n / 0x1_0000 % 256, n / 0x100 % 256, n % 256]
  }

  function FromLength4(s: seq<byte>): nat
    requires |s| == 4
  {
    ((s[0] as int * 256 + s[1] as int) * 256 + s[2] as int) * 256 + s[3] as int
  }

  lemma LengthBack(n: nat)
    requires n < 0x1_0000_0000
    ensures FromLength4(Length4(n)) == n
    ensures var s := Length4(n); n == s[0] as int * 16777216 + s[1] as int * 65536 + s[2] as int * 256 + s[3] as int
    ensures n < 0x100_0000 ==> Length4(n)[0] == 0
  {
    var a, b, c, d := n / 0x100_0000, n / 0x1_0000 % 256, n / 0x100 % 256, n % 256;
    assert n / 0x100 == n / 0x1_0000 * 256 + c;
    assert n / 0x1_0000 == a * 256 + b;
  }

  // ----- Packets -----

  /** What is encrypted: in the new protocol the length is repeated inside. */
  function Plain(inner: bool, payload: seq<byte>): seq<byte> {
    (if inner then Length4(|payload|) else []) + payload
  }

  function Packet(c: Cipher, inner: bool, iv: Ivec, payload: seq<byte>): seq<byte> {
    Length4(|payload|) + c.enc(iv, Plain(inner, payload)).0
  }

  /** The vector after a packet; the old protocol always starts afresh. */
  function NextIvec(c: Cipher, inner: bool, iv: Ivec, payload: seq<byte>): Ivec {
    if inner then c.enc(iv, Plain(inner, payload)).1 else iv
  }

  /** The packets of several payloads, one after the other. */
  function Packets(c: Cipher, inner: bool, iv: Ivec, payloads: seq<seq<byte>>): seq<byte>
    decreases |payloads|
  {
    if payloads == [] then []
    else Packet(c, inner, iv, payloads[0]) + Packets(c, inner, NextIvec(c, inner, iv, payloads[0]), payloads[1..])
  }

  function LastIvec(c: Cipher, inner: bool, iv: Ivec, payloads: seq<seq<byte>>): Ivec
    decreases |payloads|
  {
    if payloads == [] then iv else LastIvec(c, inner, NextIvec(c, inner, iv, payloads[0]), payloads[1..])
  }

  function Flatten(payloads: seq<seq<byte>>): seq<byte> {
    if payloads == [] then [] else payloads[0] + Flatten(payloads[1..])
  }

  lemma {:induction false} PacketsAppend(c: Cipher, inner: bool, iv: Ivec, payloads: seq<seq<byte>>, p: seq<byte>)
    ensures Packets(c, inner, iv, payloads + [p]) ==
            Packets(c, inner, iv, payloads) + Packet(c, inner, LastIvec(c, inner, iv, payloads), p)
    ensures LastIvec(c, inner, iv, payloads + [p]) ==
            NextIvec(c, inner, LastIvec(c, inner, iv, payloads), p)
    ensures Flatten(payloads + [p]) == Flatten(payloads) + p
    decreases |payloads|
  {
    var all := payloads + [p];
    if payloads == [] {
      assert all[0] == p && all[1..] == [];
    } else {
      assert all[0] == payloads[0] && all[1..] == payloads[1..] + [p];
      PacketsAppend(c, inner, NextIvec(c, inner, iv, payloads[0]), payloads[1..], p);
    }
  }

  /** The bytes of a packet and of what follows it, as the reader will take them apart. */
  lemma PacketShape(c: Cipher, inner: bool, iv: Ivec, payload: seq<byte>, rest: seq<byte>)
    requires Sound(c) && c.length(|Plain(inner, payload)|) <= BUFFER
    ensures var w, n := Packet(c, inner, iv, payload) + rest, |payload|;
            var net := c.length(if inner then n + 4 else n);
            && n <= BUFFER && 0 < net <= BUFFER && |w| == 4 + net + |rest|
            && w[0] == 0 && FromLength4(w[..4]) == n
            && w[4..4 + net] == c.enc(iv, Plain(inner, payload)).0 && w[4 + net..] == rest
  {
    var w, n, plain := Packet(c, inner, iv, payload) + rest, |payload|, Plain(inner, payload);
    assert |plain| == if inner then n + 4 else n;
    assert |plain| <= c.length(|plain|);
    LengthBack(n);
    assert w[..4] == Length4(n);
    assert |c.enc(iv, plain).0| == c.length(|plain|);
  }

  /** Decryption gives the payload back, after its inner length if there is one. */
  lemma PacketOpens(c: Cipher, inner: bool, iv: Ivec, payload: seq<byte>)
    requires Sound(c) && |payload| <= BUFFER
    ensures var d := c.dec(iv, c.enc(iv, Plain(inner, payload)).0);
            var at := if inner then 4 else 0;
            && at + |payload| <= |d.0| && d.0[at..at + |payload|] == payload
            && (inner ==> FromLength4(d.0[..4]) == |payload|)
            && (inner ==> d.1 == NextIvec(c, inner, iv, payload))
  {
    var plain := Plain(inner, payload);
    var d := c.dec(iv, c.enc(iv, plain).0);
    assert plain <= d.0;
    LengthBack(|payload|);
    if inner {
      assert d.0[..4] == plain[..4] == Length4(|payload|);
      assert d.0[4..4 + |payload|] == plain[4..];
    } else {
      assert plain == payload;
    }
  }

  /** What the reader makes of the bytes on the wire; `rest` is what it leaves there. */
  datatype Parsed =
    | Opened(plain: seq<byte>, start: nat, size: nat, iv: Ivec, rest: seq<byte>)
    | NoPacket
    | BadPacket(rest: seq<byte>)
    | Mismatch(plain: seq<byte>, size: nat, iv: Ivec, rest: seq<byte>)   // the two lengths differ
  {
    predicate InBounds() {
      && (Opened? ==> start + size <= |plain|)
      && (Mismatch? ==> size <= |plain|)
    }
  }

  /** With the length check, bytes are skipped up to one that can start a length. */
  function Marker(lencheck: bool, w: seq<byte>): seq<byte> {
    if w == [] || w[0] == 0 || !lencheck then w else Marker(lencheck, w[1..])
  }

  datatype Config = Config(cipher: Cipher, useIvecs: bool, doLencheck: bool)

  function ParseSpec(k: Config, iv: Ivec, wire: seq<byte>): (r: Parsed)
    ensures r.InBounds()
  {
    var w := Marker(k.doLencheck, wire);
    if |w| < 4 then NoPacket
    else
      var n := FromLength4(w[..4]);
      var net := k.cipher.length(if k.useIvecs then n + 4 else n);
      if net <= 0 || net > BUFFER then BadPacket(w[4..])
      else if |w| < 4 + net then BadPacket([])
      else
        var d := k.cipher.dec(iv, w[4..4 + net]);
        var start := if k.useIvecs then 4 else 0;
        if |d.0| < start + n then BadPacket(w[4 + net..])
        else if k.useIvecs && FromLength4(d.0[..4]) != n then Mismatch(d.0, n, d.1, w[4 + net..])
        else Opened(d.0, start, n, d.1, w[4 + net..])
  }

  /** The reading of one packet, whatever is on the wire (lines 932 to 997). */
  method ParsePacket(k: Config, iv: Ivec, wire: seq<byte>) returns (r: Parsed)
    ensures r == ParseSpec(k, iv, wire)
  {
    var w := wire;
    while true
      invariant Marker(k.doLencheck, w) == Marker(k.doLencheck, wire)
      decreases |w|
    {
      if w == [] { return NoPacket; }
      if w[0] == 0 || !k.doLencheck { break; }
      w := w[1..];
    }
    if |w| < 4 { return NoPacket; }
    var rdLen: nat := w[0];
    var j := 1;
    while j < 4
      invariant 1 <= j <= 4
      invariant j == 1 ==> rdLen == w[0] as int
      invariant j == 2 ==> rdLen == w[0] as int * 256 + w[1] as int
      invariant j == 3 ==> rdLen == (w[0] as int * 256 + w[1] as int) * 256 + w[2] as int
      invariant j == 4 ==> rdLen == FromLength4(w[..4])
    {
      rdLen := rdLen * 256 + w[j] as int;
      j := j + 1;
    }
    var netLen := k.cipher.length(if k.useIvecs then rdLen + 4 else rdLen);
    if netLen <= 0 || netLen > BUFFER { return BadPacket(w[4..]); }
    if |w| - 4 < netLen { return BadPacket([]); }
    var d := k.cipher.dec(iv, w[4..4 + netLen]);
    var start := if k.useIvecs then 4 else 0;
    if |d.0| < start + rdLen { return BadPacket(w[4 + netLen..]); }
    if k.useIvecs && FromLength4(d.0[..4]) != rdLen { return Mismatch(d.0, rdLen, d.1, w[4 + netLen..]); }
    return Opened(d.0, start, rdLen, d.1, w[4 + netLen..]);
  }

  lemma {:induction false} MarkerSkips(junk: seq<byte>, w: seq<byte>)
    requires forall i :: 0 <= i < |junk| ==> junk[i] != 0
    ensures Marker(true, junk + w) == Marker(true, w)
    decreases |junk|
  {
    if junk == [] {
      assert junk + w == w;
    } else {
      assert (junk + w)[1..] == junk[1..] + w;
      MarkerSkips(junk[1..], w);
    }
  }

  /** With the length check, a reader that has lost its place finds it again at the next zero byte. */
  lemma FindsPlace(k: Config, iv: Ivec, junk: seq<byte>, payload: seq<byte>, rest: seq<byte>)
    requires Sound(k.cipher) && k.cipher.length(|Plain(k.useIvecs, payload)|) <= BUFFER && k.doLencheck
    requires forall i :: 0 <= i < |junk| ==> junk[i] != 0
    ensures var r := ParseSpec(k, iv, junk + (Packet(k.cipher, k.useIvecs, iv, payload) + rest));
            r.Opened? && r.plain[r.start..r.start + r.size] == payload && r.rest == rest
  {
    MarkerSkips(junk, Packet(k.cipher, k.useIvecs, iv, payload) + rest);
    ParseBack(k, iv, payload, rest);
  }

  /** A packet that is cut off: the end of the stream within the length, an error after it. */
  lemma CutOff(k: Config, iv: Ivec, payload: seq<byte>, n: nat)
    requires Sound(k.cipher) && k.cipher.length(|Plain(k.useIvecs, payload)|) <= BUFFER
    requires n < |Packet(k.cipher, k.useIvecs, iv, payload)|
    ensures ParseSpec(k, iv, Packet(k.cipher, k.useIvecs, iv, payload)[..n]) ==
            if n < 4 then NoPacket else BadPacket([])
  {
    var p := Packet(k.cipher, k.useIvecs, iv, payload);
    PacketShape(k.cipher, k.useIvecs, iv, payload, []);
    assert p + [] == p;
    var w := p[..n];
    if n >= 4 { assert w[..4] == p[..4]; }
  }

  /** A length that cannot be right: its four bytes are taken off the wire, and nothing else. */
  lemma PreposterousLength(k: Config, iv: Ivec, a: byte, b: byte, c: byte, d: byte, rest: seq<byte>)
    requires a == 0 || !k.doLencheck
    requires var n := a as int * 16777216 + b as int * 65536 + c as int * 256 + d as int;
             var net := k.cipher.length(if k.useIvecs then n + 4 else n); net == 0 || net > 10240
    ensures ParseSpec(k, iv, [a, b, c, d] + rest) == BadPacket(rest)
  {
    var w := [a, b, c, d] + rest;
    assert Marker(k.doLencheck, w) == w && w[..4] == [a, b, c, d] && w[4..] == rest;
  }

  /** In the new protocol a packet is opened only if the length in the clear is the one inside. */
  lemma LengthsAgree(k: Config, iv: Ivec, w: seq<byte>)
    requires k.useIvecs && ParseSpec(k, iv, w).Opened?
    ensures var r := ParseSpec(k, iv, w);
            && r.start == 4 && 4 + r.size <= |r.plain|
            && r.size == r.plain[0] as int * 16777216 + r.plain[1] as int * 65536
                         + r.plain[2] as int * 256 + r.plain[3] as int
  {
  }

  /** A packet that was written is read back: its payload, the rest of the wire, the next vector. */
  lemma ParseBack(k: Config, iv: Ivec, payload: seq<byte>, rest: seq<byte>)
    requires Sound(k.cipher) && k.cipher.length(|Plain(k.useIvecs, payload)|) <= BUFFER
    ensures var r := ParseSpec(k, iv, Packet(k.cipher, k.useIvecs, iv, payload) + rest);
            && r.Opened? && r.plain[r.start..r.start + r.size] == payload
            && r.rest == rest && (k.useIvecs ==> r.iv == NextIvec(k.cipher, k.useIvecs, iv, payload))
  {
    PacketShape(k.cipher, k.useIvecs, iv, payload, rest);
    PacketOpens(k.cipher, k.useIvecs, iv, payload);
  }

  // ----- The stream -----

  datatype ReadResult = Got(bytes: seq<byte>) | Eof | Eio

  datatype WriteResult = Wrote(n: nat) | WriteEio | Aborted

  /** The state of the stream: the wire, the two vectors and the reader's leftover. */
  datatype State = State(wire: seq<byte>, ivecOut: Ivec, ivecIn: Ivec, storage: seq<byte>, storePtr: nat, nstored: nat)
  {
    predicate InBounds() {
      storePtr + nstored <= |storage|
    }

    /** The bytes decrypted and not yet asked for. */
    function Held(): (h: seq<byte>)
      requires InBounds()
      ensures |h| == nstored
    {
      storage[storePtr..storePtr + nstored]
    }
  }

  function WriteSpec(k: Config, s: State, buf: seq<byte>): (WriteResult, State) {
    if k.useIvecs && |buf| + 4 > BUFFER + 8 then (Aborted, s)
    else if k.cipher.length(|Plain(k.useIvecs, buf)|) > BUFFER then (WriteEio, s)
    else (Wrote(|buf|), s.(wire := s.wire + Packet(k.cipher, k.useIvecs, s.ivecOut, buf),
                           ivecOut := NextIvec(k.cipher, k.useIvecs, s.ivecOut, buf)))
  }

  /** The leftover serves the read if it is enough; else it is used up and one packet is opened. */
  function ReadSpec(k: Config, s: State, len: nat): (ReadResult, State)
    requires s.InBounds()
  {
    if s.nstored >= len then
      (Got(s.Held()[..len]), s.(storePtr := s.storePtr + len, nstored := s.nstored - len))
    else ReadOpened(k.useIvecs, s, len, ParseSpec(k, s.ivecIn, s.wire))
  }

  function ReadOpened(useIvecs: bool, s: State, len: nat, p: Parsed): (ReadResult, State)
    requires s.InBounds() && s.nstored < len && p.InBounds()
  {
    match p
    case NoPacket => (Eof, s.(wire := [], nstored := 0))
    case BadPacket(rest) => (Eio, s.(wire := rest, nstored := 0))
    case Mismatch(plain, size, iv, rest) =>
      (Eio, State(rest, s.ivecOut, if useIvecs then iv else s.ivecIn, plain, 0, size))
    case Opened(plain, start, size, iv, rest) =>
      var n := if size > len - s.nstored then len - s.nstored else size;
      (Got(s.Held() + plain[start..start + n]),
       State(rest, s.ivecOut, if useIvecs then iv else s.ivecIn, plain, start + n, size - n))
  }

  class Stream {
    const k: Config
    var wire: seq<byte>
    var ivecOut: Ivec
    var ivecIn: Ivec
    var storage: seq<byte>
    var storePtr: nat
    var nstored: nat

    ghost function Now(): State
      reads this
    {
      State(wire, ivecOut, ivecIn, storage, storePtr, nstored)
    }

    constructor (k: Config, iv: Ivec)
      ensures this.k == k && Now() == Fresh(iv)
    {
      this.k := k;
      wire, ivecOut, ivecIn, storage, storePtr, nstored := [], iv, iv, [], 0, 0;
    }

    /** v5_des_write. */
    method Write(buf: seq<byte>) returns (r: WriteResult)
      modifies this
      ensures (r, Now()) == WriteSpec(k, old(Now()), buf)
    {
      var plain: seq<byte> := buf;
      if k.useIvecs {
        if |buf| + 4 > BUFFER + 8 { return Aborted; }
        plain := Length4(|buf|) + buf;
      }
      assert plain == Plain(k.useIvecs, buf);
      if k.cipher.length(|plain|) > BUFFER { return WriteEio; }
      var e := k.cipher.enc(ivecOut, plain);
      wire := wire + (Length4(|buf|) + e.0);
      if k.useIvecs { ivecOut := e.1; }
      return Wrote(|buf|);
    }

    /** v5_des_read. */
    method Read(len: nat) returns (r: ReadResult)
      requires Now().InBounds()
      modifies this
      ensures Now().InBounds()
      ensures (r, Now()) == ReadSpec(k, old(Now()), len)
    {
      if nstored >= len {
        var out := storage[storePtr..storePtr + len];
        assert out == Now().Held()[..len];
        storePtr, nstored := storePtr + len, nstored - len;
        return Got(out);
      }
      var p := ParsePacket(k, ivecIn, wire);
      r := ReadOn(p, len);
    }

    /** The leftover is handed out and the packet, if there is one, replaces it. */
    method ReadOn(p: Parsed, len: nat) returns (r: ReadResult)
      requires Now().InBounds() && nstored < len && p.InBounds()
      modifies this
      ensures Now().InBounds()
      ensures (r, Now()) == ReadOpened(k.useIvecs, old(Now()), len, p)
    {
      var out: seq<byte> := [];
      if nstored > 0 {
        out := storage[storePtr..storePtr + nstored];
      }
      var want := len - nstored;
      nstored := 0;
      match p
      case NoPacket =>
        wire := [];
        return Eof;
      case BadPacket(rest) =>
        wire := rest;
        return Eio;
      case Mismatch(plain, size, iv, rest) =>
        wire := rest;
        storage, storePtr, nstored := plain, 0, size;
        if k.useIvecs { ivecIn := iv; }
        return Eio;
      case Opened(plain, start, size, iv, rest) =>
        wire := rest;
        storage, storePtr, nstored := plain, start, size;
        if k.useIvecs { ivecIn := iv; }
        var n := if nstored > want then want else nstored;
        out := out + storage[storePtr..storePtr + n];
        storePtr, nstored := storePtr + n, nstored - n;
        return Got(out);
    }
  }

  function Fresh(iv: Ivec): State {
    State([], iv, iv, [], 0, 0)
  }

  /** A buffer is written if and only if its ciphertext fits; else nothing changes. */
  lemma WrittenIff(k: Config, s: State, buf: seq<byte>)
    requires Sound(k.cipher)
    ensures var fits := k.cipher.length(if k.useIvecs then |buf| + 4 else |buf|) <= 10240;
            && (WriteSpec(k, s, buf).0 == Wrote(|buf|) <==> fits)
            && (WriteSpec(k, s, buf).0 == Aborted <==> k.useIvecs && |buf| > 10244)
            && (!fits ==> WriteSpec(k, s, buf).1 == s)
  {
    var n := if k.useIvecs then |buf| + 4 else |buf|;
    assert |Plain(k.useIvecs, buf)| == n && n <= k.cipher.length(n);
  }

  /**
   A read that fails hands nothing out and drops what was held. After a packet whose lengths differ,
   the next read is served from that packet all the same, length bytes first.
   */
  lemma FailedRead(k: Config, s: State, len: nat)
    requires s.InBounds() && !ReadSpec(k, s, len).0.Got?
    ensures var (r, s') := ReadSpec(k, s, len);
            var p := ParseSpec(k, s.ivecIn, s.wire);
            && s'.InBounds() && s'.ivecOut == s.ivecOut
            && (r == Eof <==> p.NoPacket?)
            && (p.NoPacket? ==> s'.wire == [] && s'.Held() == [] && s'.ivecIn == s.ivecIn)
            && (p.BadPacket? ==> s'.wire == p.rest && s'.Held() == [] && s'.ivecIn == s.ivecIn)
            && (p.Mismatch? ==> s'.wire == p.rest && s'.Held() == p.plain[..p.size] && s'.ivecIn == p.iv)
  {
  }

  // ----- Conservation -----

  /** The wire holds exactly the packets of the pending payloads, and the vectors of both ends agree on them. */
  ghost predicate Linked(k: Config, s: State, pending: seq<seq<byte>>) {
    && s.InBounds()
    && s.wire == Packets(k.cipher, k.useIvecs, s.ivecIn, pending)
    && s.ivecOut == LastIvec(k.cipher, k.useIvecs, s.ivecIn, pending)
    && (forall p :: p in pending ==> k.cipher.length(|Plain(k.useIvecs, p)|) <= BUFFER)
  }

  lemma WriteLinks(k: Config, s: State, pending: seq<seq<byte>>, buf: seq<byte>)
    requires Linked(k, s, pending) && WriteSpec(k, s, buf).0.Wrote?
    ensures Linked(k, WriteSpec(k, s, buf).1, pending + [buf])
    ensures Flatten(pending + [buf]) == Flatten(pending) + buf
  {
    PacketsAppend(k.cipher, k.useIvecs, s.ivecIn, pending, buf);
  }

  /** With nothing pending the reader finds no packet; else it finds the first payload. */
  lemma ParseLinked(k: Config, s: State, pending: seq<seq<byte>>)
    requires Sound(k.cipher) && Linked(k, s, pending)
    ensures var p := ParseSpec(k, s.ivecIn, s.wire);
            if pending == [] then p.NoPacket?
            else && p.Opened? && p.plain[p.start..p.start + p.size] == pending[0]
                 && p.rest == Packets(k.cipher, k.useIvecs,
                               NextIvec(k.cipher, k.useIvecs, s.ivecIn, pending[0]), pending[1..])
                 && (k.useIvecs ==> p.iv == NextIvec(k.cipher, k.useIvecs, s.ivecIn, pending[0]))
  {
    if pending != [] {
      ParseBack(k, s.ivecIn, pending[0],
                Packets(k.cipher, k.useIvecs, NextIvec(k.cipher, k.useIvecs, s.ivecIn, pending[0]), pending[1..]));
    }
  }

  lemma ReadHeld(k: Config, s: State, pending: seq<seq<byte>>, len: nat)
    requires Linked(k, s, pending) && s.nstored >= len
    ensures var (r, s') := ReadSpec(k, s, len);
            r.Got? && Linked(k, s', pending) && |r.bytes| == len && r.bytes + s'.Held() == s.Held()
  {
    assert s.Held() == s.Held()[..len] + s.Held()[len..];
  }

  function Min(a: nat, b: nat): nat {
    if a <= b then a else b
  }

  /** The bytes of a packet just opened are handed out after the leftover, and the rest is held. */
  lemma OpenedBytes(useIvecs: bool, s: State, len: nat, p: Parsed)
    requires s.InBounds() && s.nstored < len && p.Opened? && p.InBounds()
    ensures var (r, s') := ReadOpened(useIvecs, s, len, p);
            && r.Got? && s'.InBounds() && |r.bytes| == Min(len, s.nstored + p.size)
            && r.bytes + s'.Held() == s.Held() + p.plain[p.start..p.start + p.size]
  {
    var n := if p.size > len - s.nstored then len - s.nstored else p.size;
    var s' := ReadOpened(useIvecs, s, len, p).1;
    assert p.plain[p.start..p.start + p.size] == p.plain[p.start..p.start + n] + s'.Held();
  }

  lemma ReadPacket(k: Config, s: State, pending: seq<seq<byte>>, len: nat)
    requires Sound(k.cipher) && Linked(k, s, pending) && s.nstored < len && pending != []
    ensures var (r, s') := ReadSpec(k, s, len);
            && r.Got? && Linked(k, s', pending[1..]) && |r.bytes| == Min(len, s.nstored + |pending[0]|)
            && r.bytes + s'.Held() == s.Held() + pending[0]
  {
    ParseLinked(k, s, pending);
    OpenedBytes(k.useIvecs, s, len, ParseSpec(k, s.ivecIn, s.wire));
  }

  /**
   A read that succeeds takes its bytes off what is held and on the wire, in order, and keeps
   both ends in step. It fails only at the end of the stream, and then what was held is gone.
   */
  lemma ReadConserves(k: Config, s: State, pending: seq<seq<byte>>, len: nat)
    requires Sound(k.cipher) && Linked(k, s, pending)
    ensures var (r, s') := ReadSpec(k, s, len);
            var pending' := if s.nstored >= len || pending == [] then pending else pending[1..];
            && Linked(k, s', pending') && !r.Eio?
            && (r.Eof? <==> s.nstored < len && pending == [])
            && (r.Eof? ==> s'.Held() == [])
            && (r.Got? ==> |r.bytes| == Min(len, s.nstored + if pending == [] then 0 else |pending[0]|)
                           && r.bytes + s'.Held() + Flatten(pending') == s.Held() + Flatten(pending))
  {
    if s.nstored >= len {
      ReadHeld(k, s, pending, len);
    } else if pending != [] {
      ReadPacket(k, s, pending, len);
      assert s.Held() + Flatten(pending) == s.Held() + pending[0] + Flatten(pending[1..]);
    } else {
      ParseLinked(k, s, pending);
    }
  }

  // ----- Whole sequences of calls -----

  datatype Call = Writing(buf: seq<byte>) | Reading(len: nat)

  /** What a sequence of calls has written and returned so far, and whether a read has hit the end. */
  datatype Trace = Trace(state: State, written: seq<byte>, returned: seq<byte>, ended: bool)

  function Step(k: Config, t: Trace, c: Call): Trace
    requires t.state.InBounds()
  {
    match c
    case Writing(buf) =>
      var (r, s) := WriteSpec(k, t.state, buf);
      if r.Wrote? then t.(state := s, written := t.written + buf) else t
    case Reading(len) =>
      var (r, s) := ReadSpec(k, t.state, len);
      if r.Got? then t.(state := s, returned := t.returned + r.bytes) else t.(state := s, ended := true)
  }

  ghost predicate Tracked(k: Config, t: Trace, pending: seq<seq<byte>>) {
    && Linked(k, t.state, pending)
    && (!t.ended ==> t.returned + (t.state.Held() + Flatten(pending)) == t.written)
  }

  lemma WriteTracked(k: Config, t: Trace, buf: seq<byte>, pending: seq<seq<byte>>)
    requires Tracked(k, t, pending) && WriteSpec(k, t.state, buf).0.Wrote?
    ensures Tracked(k, Step(k, t, Writing(buf)), pending + [buf])
  {
    WriteLinks(k, t.state, pending, buf);
    var h, f := t.state.Held(), Flatten(pending);
    RegroupLast(t.returned, h, f, buf);
  }

  lemma RegroupLast(a: seq<byte>, b: seq<byte>, c: seq<byte>, d: seq<byte>)
    ensures a + (b + (c + d)) == a + (b + c) + d
  {
  }

  lemma ReadTracked(k: Config, t: Trace, len: nat, pending: seq<seq<byte>>)
    requires Sound(k.cipher) && Tracked(k, t, pending)
    ensures Tracked(k, Step(k, t, Reading(len)),
                        if t.state.nstored >= len || pending == [] then pending else pending[1..])
  {
    ReadConserves(k, t.state, pending, len);
    var pending' := if t.state.nstored >= len || pending == [] then pending else pending[1..];
    var (r, s) := ReadSpec(k, t.state, len);
    if r.Got? { RegroupPairs(t.returned, r.bytes, s.Held(), Flatten(pending')); }
  }

  lemma RegroupPairs(a: seq<byte>, b: seq<byte>, c: seq<byte>, d: seq<byte>)
    ensures (a + b) + (c + d) == a + (b + c + d)
  {
  }

  ghost function Replay(k: Config, iv: Ivec, calls: seq<Call>): (t: Trace)
    requires Sound(k.cipher)
    ensures exists pending :: Tracked(k, t, pending)
  {
    if calls == [] then
      var t := Trace(Fresh(iv), [], [], false);
      assert Tracked(k, t, []);
      t
    else
      var t := Replay(k, iv, calls[..|calls| - 1]);
      var pending :| Tracked(k, t, pending);
      StepExists(k, t, calls[|calls| - 1], pending);
      Step(k, t, calls[|calls| - 1])
  }

  lemma StepExists(k: Config, t: Trace, c: Call, pending: seq<seq<byte>>)
    requires Sound(k.cipher) && Tracked(k, t, pending)
    ensures exists pending' :: Tracked(k, Step(k, t, c), pending')
  {
    match c
    case Writing(buf) =>
      if WriteSpec(k, t.state, buf).0.Wrote? {
        WriteTracked(k, t, buf, pending);
      } else {
        assert Tracked(k, Step(k, t, c), pending);
      }
    case Reading(len) => ReadTracked(k, t, len, pending);
  }

  /**
   After any writes and reads, in either protocol: the bytes returned, the bytes held and the
   payloads of the packets not yet read are the bytes written, in order.
   */
  lemma StreamConserved(k: Config, iv: Ivec, calls: seq<Call>)
    requires Sound(k.cipher) && !Replay(k, iv, calls).ended
    ensures var t := Replay(k, iv, calls);
            exists pending :: Linked(k, t.state, pending)
                              && t.returned + (t.state.Held() + Flatten(pending)) == t.written
  {
    var t := Replay(k, iv, calls);
    var pending :| Tracked(k, t, pending);
  }

  lemma ReplayStep(k: Config, iv: Ivec, calls: seq<Call>, c: Call)
    requires Sound(k.cipher)
    ensures Replay(k, iv, calls + [c]) == Step(k, Replay(k, iv, calls), c)
  {
    assert (calls + [c])[..|calls + [c]| - 1] == calls;
  }

  /** Three bytes are written and one is read: two are held. */
  lemma TwoHeld(k: Config, iv: Ivec, p: seq<byte>)
    requires Sound(k.cipher) && |p| == 3 && k.cipher.length(|Plain(k.useIvecs, p)|) <= BUFFER
    ensures var t := Replay(k, iv, [Writing(p), Reading(1)]);
            && Tracked(k, t, []) && !t.ended
            && t.written == p && t.returned == p[..1] && t.state.nstored == 2
  {
    var t0 := Replay(k, iv, []);
    ReplayStep(k, iv, [], Writing(p));
    assert [] + [Writing(p)] == [Writing(p)] && t0.written + p == p;
    WriteTracked(k, t0, p, []);
    var t1 := Step(k, t0, Writing(p));
    ReplayStep(k, iv, [Writing(p)], Reading(1));
    assert [Writing(p)] + [Reading(1)] == [Writing(p), Reading(1)];
    var none: seq<seq<byte>> := [];
    assert [] + [p] == [p] && [p][1..] == none;
    ReadTracked(k, t1, 1, [p]);
    ReadPacket(k, t1.state, [p], 1);
    var (r, s) := ReadSpec(k, t1.state, 1);
    assert r.bytes + s.Held() == p;
  }

  /** A read of five then meets the end of the stream: it returns nothing, and the two bytes are gone. */
  lemma HeldLost(k: Config, iv: Ivec, p: seq<byte>)
    requires Sound(k.cipher) && |p| == 3 && k.cipher.length(|Plain(k.useIvecs, p)|) <= BUFFER
    ensures var t := Replay(k, iv, [Writing(p), Reading(1), Reading(5)]);
            t.written == p && t.returned == p[..1] && t.ended && t.state.wire == [] && t.state.nstored == 0
  {
    TwoHeld(k, iv, p);
    ReplayStep(k, iv, [Writing(p), Reading(1)], Reading(5));
    assert [Writing(p), Reading(1)] + [Reading(5)] == [Writing(p), Reading(1), Reading(5)];
    ParseLinked(k, Replay(k, iv, [Writing(p), Reading(1)]).state, []);
  }
}
