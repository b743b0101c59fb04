/**
 In-band control in rlogin: krlogind quotes every pair of 0377 bytes in what it sends
 (krlogind.c), and krlogin removes the quotes, and control messages, in place (krlogin.c).
 */
module RloginQuote {
  import opened Bytes
  import opened Options
  import opened Sequences

  const FF: byte := 0xFF
  const Q: byte := 0x71
  const O: byte := 0x6F

  predicate Pair(s: seq<byte>) {
    |s| >= 2 && s[0] == FF && s[1] == FF
  }

  // ----- Quoting -----

  function Quote(s: seq<byte>): (q: seq<byte>)
    ensures |s| <= |q| <= 2 * |s|
  {
    if s == [] then []
    else if Pair(s) then [FF, FF, Q, Q] + Quote(s[2..])
    else [s[0]] + Quote(s[1..])
  }

  /** Every pair is quoted, wherever it stands after another byte, and nothing else is changed. */
  lemma {:induction false} QuotesPairs(a: seq<byte>, b: seq<byte>)
    requires a == [] || a[|a| - 1] != 0xFF
    ensures Quote(a + ([0xFF, 0xFF] + b)) == Quote(a) + ([0xFF, 0xFF, 0x71, 0x71] + Quote(b))
    ensures (forall i :: 0 <= i < |a| ==> a[i] != 0xFF) ==> Quote(a) == a
    decreases |a|
  {
    var s := a + ([FF, FF] + b);
    if a == [] {
      assert s == [FF, FF] + b && s[2..] == b;
    } else if Pair(a) {
      assert s[2..] == a[2..] + ([FF, FF] + b);
      QuotesPairs(a[2..], b);
      Regroup([FF, FF, Q, Q], Quote(a[2..]), [FF, FF, Q, Q] + Quote(b));
    } else {
      assert s[1..] == a[1..] + ([FF, FF] + b) && a == [a[0]] + a[1..];
      QuotesPairs(a[1..], b);
      Regroup([a[0]], Quote(a[1..]), [FF, FF, Q, Q] + Quote(b));
    }
  }

  /** What one round of the quoting loop adds for the bytes still to be quoted. */
  lemma QuoteStep(done: seq<byte>, rest: seq<byte>)
    requires rest != []
    ensures done + Quote(rest) == if Pair(rest) then done + [FF, FF, Q, Q] + Quote(rest[2..])
                                  else done + [rest[0]] + Quote(rest[1..])
  {
    if Pair(rest) {
      assert done + [FF, FF, Q, Q] + Quote(rest[2..]) == done + ([FF, FF, Q, Q] + Quote(rest[2..]));
    } else {
      assert done + [rest[0]] + Quote(rest[1..]) == done + ([rest[0]] + Quote(rest[1..]));
    }
  }

  method PutByte(buf: array<byte>, at: nat, c: byte)
    requires at < buf.Length
    modifies buf
    ensures buf[..at + 1] == old(buf[..at]) + [c]
  {
    buf[at] := c;
  }

  method PutQuoted(buf: array<byte>, at: nat)
    requires at + 4 <= buf.Length
    modifies buf
    ensures buf[..at + 4] == old(buf[..at]) + [FF, FF, Q, Q]
  {
    buf[at] := FF;
    buf[at + 1] := FF;
    buf[at + 2] := Q;
    buf[at + 3] := Q;
  }

  /** The quoting loop of `protocol`, from one buffer into another. */
  method QuoteBuffer(pibuf: array<byte>, pcc: nat, qpibuf: array<byte>) returns (qpcc: nat)
    requires pcc <= pibuf.Length && 2 * pcc <= qpibuf.Length && pibuf != qpibuf
    modifies qpibuf
    ensures qpcc <= 2 * pcc && qpibuf[..qpcc] == Quote(pibuf[..pcc])
  {
    qpcc := 0;
    var i := 0;
    ghost var done, rest := [], pibuf[..pcc];
    ghost var goal := Quote(rest);
    while i < pcc
      invariant 0 <= i <= pcc && pibuf[i..pcc] == rest
      invariant qpcc == |done| <= 2 * i && qpibuf[..qpcc] == done
      invariant done + Quote(rest) == goal
    {
      QuoteStep(done, rest);
      assert pibuf[i] == rest[0] && (i + 1 < pcc ==> pibuf[i + 1] == rest[1]);
      if pibuf[i] == FF && i + 1 < pcc && pibuf[i + 1] == FF {
        PutQuoted(qpibuf, qpcc);
        i, qpcc, done, rest := i + 2, qpcc + 4, done + [FF, FF, Q, Q], rest[2..];
      } else {
        PutByte(qpibuf, qpcc, pibuf[i]);
        i, qpcc, done, rest := i + 1, qpcc + 1, done + [rest[0]], rest[1..];
      }
    }
  }

  // ----- Unquoting -----

  /** A one-byte message follows the pair. */
  predicate Message(s: seq<byte>) {
    |s| >= 5 && s[2] == O && s[3] == O
  }

  predicate Quoted(s: seq<byte>) {
    |s| >= 4 && s[2] == Q && s[3] == Q
  }

  function Prepend(c: seq<byte>, r: Option<seq<byte>>): Option<seq<byte>> {
    if r.None? then None else Some(c + r.value)
  }

  /**
   What is left of the bytes from some position on, or None if a message asks for the buffer
   to be thrown away. A pair that has been unquoted is looked at again.
   */
  function Unquote(s: seq<byte>, flushes: byte -> bool): Option<seq<byte>>
    decreases |s|
  {
    if |s| < 2 then Some(s)
    else if Pair(s) && Message(s) then (if flushes(s[4]) then None else Unquote(s[5..], flushes))
    else if Pair(s) && Quoted(s) then Unquote([FF, FF] + s[4..], flushes)
    else Prepend([s[0]], Unquote(s[1..], flushes))
  }

  /** memmove within the buffer: n bytes are taken out at position at. */
  method RemoveAt(buf: array<byte>, cnt: nat, at: nat, n: nat)
    requires at + n <= cnt <= buf.Length
    modifies buf
    ensures buf[..at] == old(buf[..at]) && buf[at..cnt - n] == old(buf[at + n..cnt])
  {
    forall j | at <= j < cnt - n {
      buf[j] := buf[j + n];
    }
  }

  /** The quote is overwritten with the pair it stands for, and the pair before it is taken out. */
  method RemoveQuote(buf: array<byte>, cnt: nat, at: nat)
    requires at + 4 <= cnt <= buf.Length
    modifies buf
    ensures buf[..at] == old(buf[..at]) && buf[at..cnt - 2] == [FF, FF] + old(buf[at + 4..cnt])
  {
    buf[at + 2], buf[at + 3] := FF, FF;
    assert buf[at + 2..cnt] == [FF, FF] + buf[at + 4..cnt];
    RemoveAt(buf, cnt, at, 2);
  }

  /** Moving past a byte that starts neither a message nor a quote. */
  lemma UnquotePass(head: seq<byte>, tail: seq<byte>, flushes: byte -> bool)
    requires |tail| >= 2 && !(Pair(tail) && (Message(tail) || Quoted(tail)))
    ensures Prepend(head, Unquote(tail, flushes)) == Prepend(head + [tail[0]], Unquote(tail[1..], flushes))
  {
    var r := Unquote(tail[1..], flushes);
    if r.Some? { assert head + ([tail[0]] + r.value) == head + [tail[0]] + r.value; }
  }

  /** The in-band loop of `reader`; `flushes` says which messages make the client drop its buffer. */
  method UnquoteBuffer(rcvbuf: array<byte>, rcvcnt: nat, flushes: byte -> bool) returns (cnt: nat)
    requires rcvcnt <= rcvbuf.Length
    modifies rcvbuf
    ensures cnt <= rcvcnt
    ensures var r := Unquote(old(rcvbuf[..rcvcnt]), flushes);
            rcvbuf[..cnt] == if r.None? then [] else r.value
  {
    ghost var goal := Unquote(rcvbuf[..rcvcnt], flushes);
    ghost var head, tail := [], rcvbuf[..rcvcnt];
    assert goal == Prepend(head, goal) by { if goal.Some? { assert [] + goal.value == goal.value; } }
    cnt := rcvcnt;
    var cp := 0;
    while cp < cnt - 1
      invariant cnt <= rcvcnt && cp <= cnt
      invariant rcvbuf[..cp] == head && rcvbuf[cp..cnt] == tail
      invariant goal == Prepend(head, Unquote(tail, flushes))
      decreases cnt - cp
    {
      var left := cnt - cp;
      assert tail[0] == rcvbuf[cp] && tail[1] == rcvbuf[cp + 1];
      assert left >= 4 ==> tail[2] == rcvbuf[cp + 2] && tail[3] == rcvbuf[cp + 3];
      assert left >= 5 ==> tail[4] == rcvbuf[cp + 4];
      if rcvbuf[cp] == FF && rcvbuf[cp + 1] == FF && left >= 5 && rcvbuf[cp + 2] == O && rcvbuf[cp + 3] == O {
        if flushes(rcvbuf[cp + 4]) {
          cnt := 0;
          return;
        }
        RemoveAt(rcvbuf, cnt, cp, 5);
        cnt, tail := cnt - 5, tail[5..];
      } else if rcvbuf[cp] == FF && rcvbuf[cp + 1] == FF && left >= 4 && rcvbuf[cp + 2] == Q && rcvbuf[cp + 3] == Q {
        RemoveQuote(rcvbuf, cnt, cp);
        cnt, tail := cnt - 2, [FF, FF] + tail[4..];
      } else {
        UnquotePass(head, tail, flushes);
        cp, head, tail := cp + 1, head + [tail[0]], tail[1..];
      }
    }
    assert rcvbuf[..cnt] == rcvbuf[..cp] + rcvbuf[cp..cnt];
  }

  // ----- When the round trip is exact -----

  /** After a pair these bytes would be taken for a quote or a message. */
  predicate Confusing(s: seq<byte>) {
    || (|s| >= 2 && s[0] == Q && s[1] == Q)
    || (|s| >= 3 && s[0] == O && s[1] == O)
  }

  /** Nowhere does a run of two or more 0377 bytes end in front of such bytes. */
  predicate Safe(s: seq<byte>) {
    |s| < 2 || (!(Pair(s) && Confusing(s[2..])) && Safe(s[1..]))
  }

  /** The bytes come back exactly if they are safe, and otherwise some are missing. */
  predicate Restored(r: Option<seq<byte>>, s: seq<byte>) {
    if Safe(s) then r == Some(s) else r.None? || |r.value| < |s|
  }

  /** A byte that does not start a pair is passed over. */
  lemma UnquoteCons(c: byte, q: seq<byte>, flushes: byte -> bool)
    requires !Pair([c] + q) || !(Message([c] + q) || Quoted([c] + q))
    ensures Unquote([c] + q, flushes) == Prepend([c], Unquote(q, flushes))
  {
    assert ([c] + q)[1..] == q;
    if q == [] { assert [c] + q == [c]; }
  }

  /** A byte passed over is restored with the bytes after it. */
  lemma RestoredCons(c: byte, q: seq<byte>, s: seq<byte>, flushes: byte -> bool)
    requires !Pair([c] + q) || !(Message([c] + q) || Quoted([c] + q))
    requires Restored(Unquote(q, flushes), s) && (Safe([c] + s) <==> Safe(s))
    ensures Restored(Unquote([c] + q, flushes), [c] + s)
  {
    UnquoteCons(c, q, flushes);
  }

  /** Whatever comes first, at least the rest of the quotes are taken out again. */
  lemma {:induction false} Shrinks(s: seq<byte>, flushes: byte -> bool)
    requires s != []
    ensures var r := Unquote(Quote(s)[1..], flushes); r.None? || |r.value| <= |s| + 1
    decreases |s|, 0
  {
    if Pair(s) {
      var q := Quote(s[2..]);
      assert Quote(s)[1..] == [FF] + ([Q] + ([Q] + q));
      Restores(s[2..], flushes);
      UnquoteCons(Q, q, flushes);
      UnquoteCons(Q, [Q] + q, flushes);
      UnquoteCons(FF, [Q] + ([Q] + q), flushes);
    } else {
      assert Quote(s)[1..] == Quote(s[1..]);
      Restores(s[1..], flushes);
    }
  }

  /** Quoting and then unquoting gives the bytes back exactly when they are safe. */
  lemma {:induction false} Restores(s: seq<byte>, flushes: byte -> bool)
    ensures Restored(Unquote(Quote(s), flushes), s)
    decreases |s|, 1
  {
    if s != [] {
      assert s == [s[0]] + s[1..];
      if Pair(s) {
        var q := Quote(s[2..]);
        assert Quote(s)[4..] == q && s == [FF, FF] + s[2..];
        RestoresAfterTwo(s[2..], flushes);
      } else if s[0] == FF {
        RestoresAfterOne(s[1..], flushes);
      } else {
        Restores(s[1..], flushes);
        RestoredCons(s[0], Quote(s[1..]), s[1..], flushes);
      }
    }
  }

  /** The same with one 0377 byte in front that is not quoted. */
  lemma {:induction false} RestoresAfterOne(s: seq<byte>, flushes: byte -> bool)
    ensures Restored(Unquote([FF] + Quote(s), flushes), [FF] + s)
    decreases |s|, 2
  {
    var q := Quote(s);
    if s == [] {
      assert [FF] + q == [FF] && [FF] + s == [FF];
    } else if s[0] == FF && !Pair(s) {
      assert [FF] + q == [FF, FF] + Quote(s[1..]) && [FF] + s == [FF, FF] + s[1..];
      RestoresAfterTwo(s[1..], flushes);
    } else {
      Restores(s, flushes);
      assert ([FF] + s)[1..] == s;
      if Pair(s) { assert ([FF] + s)[2..] == s[1..]; }
      RestoredCons(FF, q, s, flushes);
    }
  }

  /** The same with a pair in front, as it is after its quote has been removed. */
  lemma {:induction false} RestoresAfterTwo(s: seq<byte>, flushes: byte -> bool)
    ensures Restored(Unquote([FF, FF] + Quote(s), flushes), [FF, FF] + s)
    decreases |s|, 3
  {
    if |s| >= 2 && s[0] == Q && s[1] == Q {
      RestoresAfterTwo(s[2..], flushes);
      QuotedAgain(s, flushes);
    } else if |s| >= 3 && s[0] == O && s[1] == O {
      Shrinks(s[2..], flushes);
      TakenForMessage(s, flushes);
    } else {
      RestoresAfterOne(s, flushes);
      NotConfused(s, flushes);
    }
  }

  lemma UnsafePair(s: seq<byte>)
    ensures Safe([FF, FF] + s) <==> !Confusing(s) && Safe([FF] + s)
  {
    assert ([FF, FF] + s)[2..] == s && ([FF, FF] + s)[1..] == [FF] + s;
  }

  lemma AfterFour(c: byte, rest: seq<byte>)
    ensures var w := [FF, FF] + ([c] + ([c] + rest));
            && Pair(w) && |w| == 4 + |rest| && w[2] == w[3] == c && w[4..] == rest
            && (rest != [] ==> w[5..] == rest[1..])
  {
  }

  /** Bytes that look like a quote are taken for one, and are lost. */
  lemma QuotedAgain(s: seq<byte>, flushes: byte -> bool)
    requires |s| >= 2 && s[0] == Q && s[1] == Q
    requires Restored(Unquote([FF, FF] + Quote(s[2..]), flushes), [FF, FF] + s[2..])
    ensures Restored(Unquote([FF, FF] + Quote(s), flushes), [FF, FF] + s)
  {
    QuoteTwo(s);
    UnsafePair(s);
    AfterFour(Q, Quote(s[2..]));
  }

  /** Bytes that look like a message are taken for one, with the byte after them. */
  lemma TakenForMessage(s: seq<byte>, flushes: byte -> bool)
    requires |s| >= 3 && s[0] == O && s[1] == O
    requires var r := Unquote(Quote(s[2..])[1..], flushes); r.None? || |r.value| <= |s[2..]| + 1
    ensures Restored(Unquote([FF, FF] + Quote(s), flushes), [FF, FF] + s)
  {
    QuoteTwo(s);
    UnsafePair(s);
    AfterFour(O, Quote(s[2..]));
  }

  lemma NotConfused(s: seq<byte>, flushes: byte -> bool)
    requires !Confusing(s) && Restored(Unquote([FF] + Quote(s), flushes), [FF] + s)
    ensures Restored(Unquote([FF, FF] + Quote(s), flushes), [FF, FF] + s)
  {
    FirstTwo(s);
    UnsafePair(s);
    var q := Quote(s);
    PairVerdict(q);
    Split(q);
    Split(s);
    RestoredCons(FF, [FF] + q, [FF] + s, flushes);
  }

  lemma Split(q: seq<byte>)
    ensures [FF, FF] + q == [FF] + ([FF] + q)
  {
  }

  /** After a pair, bytes are taken for a quote or a message just when they are confusing. */
  lemma PairVerdict(q: seq<byte>)
    ensures var w := [FF, FF] + q; Message(w) || Quoted(w) <==> Confusing(q)
  {
    var w := [FF, FF] + q;
    if |q| >= 2 { assert w[2] == q[0] && w[3] == q[1]; }
  }

  lemma QuoteOne(s: seq<byte>)
    requires s != [] && s[0] != FF
    ensures Quote(s) == [s[0]] + Quote(s[1..])
  {
  }

  lemma QuoteTwo(s: seq<byte>)
    requires |s| >= 2 && s[0] != FF && s[1] != FF
    ensures Quote(s) == [s[0]] + ([s[1]] + Quote(s[2..]))
  {
    QuoteOne(s);
    QuoteOne(s[1..]);
    assert s[1..][1..] == s[2..];
  }

  /** Quoting neither makes nor hides bytes that could be confused after a pair. */
  lemma FirstTwo(s: seq<byte>)
    ensures Confusing(Quote(s)) <==> Confusing(s)
  {
    if |s| >= 2 && !Pair(s) {
      assert Quote(s) == [s[0]] + Quote(s[1..]);
      assert s[1..][0] == s[1];
      if s[1] != FF { assert Quote(s[1..]) == [s[1]] + Quote(s[1..][1..]); }
    }
  }

  /** What krlogin keeps of a buffer quoted by krlogind is that buffer if and only if it is safe. */
  lemma RoundTrip(s: seq<byte>, flushes: byte -> bool)
    ensures var r := Unquote(Quote(s), flushes);
            && (r == Some(s) <==> Safe(s))
            && ((if r.None? then [] else r.value) == s <==> Safe(s))
  {
    Restores(s, flushes);
  }

  // ----- Quoted bytes that come in several reads -----

  /** What krlogin keeps of one read. */
  function Kept(q: seq<byte>, flushes: byte -> bool): seq<byte> {
    var r := Unquote(q, flushes);
    if r.None? then [] else r.value
  }

  const QUOTE: seq<byte> := [FF, FF, Q, Q]

  /** Position i of the quoted bytes is not inside a quoted pair. */
  predicate Between(s: seq<byte>, i: nat) {
    if i == 0 || s == [] then true
    else if Pair(s) then i >= 4 && Between(s[2..], i - 4)
    else Between(s[1..], i - 1)
  }

  /**
   The quoted bytes of s, cut into a and b: between the bytes s1 and s2, or inside a quoted pair,
   which is then cut into x and y.
   */
  ghost predicate CutsInto(s: seq<byte>, a: seq<byte>, b: seq<byte>,
                           s1: seq<byte>, x: seq<byte>, y: seq<byte>, s2: seq<byte>)
  {
    && a == Quote(s1) + x && b == y + Quote(s2)
    && if x == [] then y == [] && s == s1 + s2 && Apart(s1, s2)
       else y != [] && x + y == QUOTE && s == s1 + ([FF, FF] + s2)
  }

  /** No pair of 0377 bytes is quoted across the end of s1. */
  predicate Apart(s1: seq<byte>, s2: seq<byte>) {
    s1 == [] || (if Pair(s1) then Apart(s1[2..], s2) else !Pair(s1 + s2) && Apart(s1[1..], s2))
  }

  /** One more byte, or pair, in front. */
  lemma CutLater(u: seq<byte>, s: seq<byte>, a: seq<byte>, b: seq<byte>,
                 s1: seq<byte>, x: seq<byte>, y: seq<byte>, s2: seq<byte>)
    requires CutsInto(s, a, b, s1, x, y, s2)
    requires if |u| == 1 then !Pair(u + s) else u == [FF, FF]
    ensures CutsInto(u + s, (if |u| == 1 then u else QUOTE) + a, b, u + s1, x, y, s2)
  {
    var v := if |u| == 1 then u else QUOTE;
    assert (u + s1)[|u|..] == s1;
    FirstOf(s, s1, if x == [] then s2 else [FF, FF] + s2);
    assert Quote(u + s1) == v + Quote(s1);
    Regroup(v, Quote(s1), x);
    Regroup(u, s1, if x == [] then s2 else [FF, FF] + s2);
  }

  lemma Halves(a: seq<byte>, b: seq<byte>, c: seq<byte>, d: seq<byte>)
    requires a + b == c + d
    ensures |a| >= |c| ==> a == c + a[|c|..] && a[|c|..] + b == d
    ensures |a| <= |c| ==> c == a + c[|a|..] && b == c[|a|..] + d
  {
    var w := a + b;
    assert w[..|a|] == a && w[|a|..] == b && w[..|c|] == c && w[|c|..] == d;
    if |a| >= |c| {
      assert a[..|c|] == c && a[|c|..] + b == d;
    } else {
      assert c[..|a|] == a && c[|a|..] + d == b;
    }
  }

  /** Where a and b meet. */
  lemma {:induction false} Cut(s: seq<byte>, a: seq<byte>, b: seq<byte>)
    returns (s1: seq<byte>, x: seq<byte>, y: seq<byte>, s2: seq<byte>)
    requires a + b == Quote(s)
    ensures CutsInto(s, a, b, s1, x, y, s2) && (x == [] <==> Between(s, |a|))
    decreases |s|
  {
    if a == [] {
      s1, x, y, s2 := [], [], [], s;
      assert a + b == b && [] + s == s && y + Quote(s) == Quote(s);
    } else if Pair(s) {
      assert s == [FF, FF] + s[2..];
      Halves(a, b, QUOTE, Quote(s[2..]));
      if |a| < 4 {
        s1, x, y, s2 := [], a, QUOTE[|a|..], s[2..];
        assert [] + x == x && [] + ([FF, FF] + s2) == s;
      } else {
        s1, x, y, s2 := Cut(s[2..], a[4..], b);
        CutLater([FF, FF], s[2..], a[4..], b, s1, x, y, s2);
        s1 := [FF, FF] + s1;
      }
    } else {
      assert s == [s[0]] + s[1..];
      Halves(a, b, [s[0]], Quote(s[1..]));
      s1, x, y, s2 := Cut(s[1..], a[1..], b);
      CutLater([s[0]], s[1..], a[1..], b, s1, x, y, s2);
      s1 := [s[0]] + s1;
    }
  }

  lemma FirstOf(s: seq<byte>, a: seq<byte>, b: seq<byte>)
    requires s == a + b
    ensures a != [] ==> s != [] && a[0] == s[0]
  {
  }

  lemma {:induction false} SafeSuffix(a: seq<byte>, b: seq<byte>)
    requires Safe(a + b)
    ensures Safe(b)
    decreases |a|
  {
    if a == [] {
      assert a + b == b;
    } else {
      assert (a + b)[1..] == a[1..] + b;
      if |a + b| >= 2 { SafeSuffix(a[1..], b); }
    }
  }

  lemma {:induction false} SafePrefix(a: seq<byte>, b: seq<byte>)
    requires Safe(a + b)
    ensures Safe(a)
    decreases |a|
  {
    if |a| >= 2 {
      assert (a + b)[1..] == a[1..] + b;
      SafePrefix(a[1..], b);
      assert (a + b)[2..] == a[2..] + b;
    }
  }

  lemma KeptCons(c: byte, q: seq<byte>, s: seq<byte>, flushes: byte -> bool)
    requires (c != FF || (q != [] && q[0] != FF)) && Unquote(q, flushes) == Some(s)
    ensures Unquote([c] + q, flushes) == Some([c] + s)
  {
    UnquoteCons(c, q, flushes);
  }

  lemma KeptThree(q: seq<byte>, s: seq<byte>, flushes: byte -> bool)
    requires Unquote(q, flushes) == Some(s)
    ensures Unquote([Q] + q, flushes) == Some([Q] + s)
    ensures Unquote([Q] + ([Q] + q), flushes) == Some([Q] + ([Q] + s))
    ensures Unquote([FF] + ([Q] + ([Q] + q)), flushes) == Some([FF] + ([Q] + ([Q] + s)))
  {
    KeptCons(Q, q, s, flushes);
    KeptCons(Q, [Q] + q, [Q] + s, flushes);
    KeptCons(FF, [Q] + ([Q] + q), [Q] + ([Q] + s), flushes);
  }

  lemma Spelled(q: seq<byte>)
    ensures [Q, Q] + q == [Q] + ([Q] + q) && [FF, Q, Q] + q == [FF] + ([Q] + ([Q] + q))
  {
  }

  /** The second part of a pair that was cut is not seen as a quote, and stays. */
  lemma KeptQuote(y: seq<byte>, s: seq<byte>, flushes: byte -> bool)
    requires (y == [FF, Q, Q] || y == [Q, Q] || y == [Q]) && Safe(s)
    ensures Kept(y + Quote(s), flushes) == y + s
  {
    Restores(s, flushes);
    KeptThree(Quote(s), s, flushes);
    Spelled(Quote(s));
    Spelled(s);
  }

  lemma SecondPart(x: seq<byte>, y: seq<byte>)
    requires x + y == QUOTE && x != [] && y != []
    ensures y == [FF, Q, Q] || y == [Q, Q] || y == [Q]
  {
    assert y == QUOTE[|x|..];
  }

  function Concat(parts: seq<seq<byte>>): seq<byte> {
    if parts == [] then [] else parts[0] + Concat(parts[1..])
  }

  /** What krlogin keeps of the bytes it gets in these reads. */
  function KeptAll(parts: seq<seq<byte>>, flushes: byte -> bool): seq<byte> {
    if parts == [] then [] else Kept(parts[0], flushes) + KeptAll(parts[1..], flushes)
  }

  /** From position at on, no read ends inside a quoted pair. */
  predicate Aligned(parts: seq<seq<byte>>, s: seq<byte>, at: nat)
    decreases |parts|
  {
    parts == [] || (Between(s, at + |parts[0]|) && Aligned(parts[1..], s, at + |parts[0]|))
  }

  lemma {:induction false} AlignedShift(parts: seq<seq<byte>>, s: seq<byte>, off: nat, s2: seq<byte>, at: nat)
    requires forall i: nat :: Between(s, off + i) <==> Between(s2, i)
    ensures Aligned(parts, s, off + at) <==> Aligned(parts, s2, at)
    decreases |parts|
  {
    if parts != [] {
      var n := at + |parts[0]|;
      assert Between(s, off + n) <==> Between(s2, n);
      AlignedShift(parts[1..], s, off, s2, n);
    }
  }

  lemma BetweenNext(s1: seq<byte>, s2: seq<byte>, i: nat)
    requires s1 != [] && Apart(s1, s2)
    ensures var n := if Pair(s1) then 2 else 1;
            && Apart(s1[n..], s2)
            && (Between(s1 + s2, |Quote(s1)| + i) <==> Between(s1[n..] + s2, |Quote(s1[n..])| + i))
  {
    var n := if Pair(s1) then 2 else 1;
    assert (s1 + s2)[n..] == s1[n..] + s2;
  }

  lemma {:induction false} BetweenShift(s1: seq<byte>, s2: seq<byte>, i: nat)
    requires Apart(s1, s2)
    ensures Between(s1 + s2, |Quote(s1)| + i) <==> Between(s2, i)
    decreases |s1|
  {
    if s1 == [] {
      assert s1 + s2 == s2;
    } else {
      BetweenNext(s1, s2, i);
      BetweenShift(s1[if Pair(s1) then 2 else 1..], s2, i);
    }
  }

  lemma AlignedRest(parts: seq<seq<byte>>, s1: seq<byte>, s2: seq<byte>)
    requires Apart(s1, s2)
    ensures Aligned(parts, s1 + s2, |Quote(s1)|) <==> Aligned(parts, s2, 0)
  {
    forall i: nat ensures Between(s1 + s2, |Quote(s1)| + i) <==> Between(s2, i) {
      BetweenShift(s1, s2, i);
    }
    AlignedShift(parts, s1 + s2, |Quote(s1)|, s2, 0);
  }

  function FromEnd(w: seq<byte>, j: nat): byte
    requires j < |w|
  {
    w[|w| - 1 - j]
  }

  /** Counted from the end, the two differ in some byte. */
  ghost predicate EndsWrong(w: seq<byte>, s: seq<byte>) {
    exists j: nat :: j < |w| && j < |s| && FromEnd(w, j) != FromEnd(s, j)
  }

  lemma WrongLater(k: seq<byte>, w: seq<byte>, l: seq<byte>, s: seq<byte>)
    requires EndsWrong(w, s)
    ensures EndsWrong(k + w, l + s) && k + w != l + s
  {
    var j: nat :| j < |w| && j < |s| && FromEnd(w, j) != FromEnd(s, j);
    assert FromEnd(k + w, j) == FromEnd(w, j) && FromEnd(l + s, j) == FromEnd(s, j);
  }

  lemma EndOfQuote(y: seq<byte>, s: seq<byte>)
    requires y != [] && y[|y| - 1] == Q
    ensures EndsWrong(y + s, [FF] + s)
  {
    assert FromEnd(y + s, |s|) == Q && FromEnd([FF] + s, |s|) == FF;
  }

  /** The reads that carry safe bytes: all comes back if they are aligned, and else the end is wrong. */
  lemma {:induction false} Parts(parts: seq<seq<byte>>, s: seq<byte>, flushes: byte -> bool)
    requires Safe(s) && Concat(parts) == Quote(s)
    ensures if Aligned(parts, s, 0) then KeptAll(parts, flushes) == s else EndsWrong(KeptAll(parts, flushes), s)
    decreases |parts|, 0
  {
    if parts != [] {
      var a, rest := parts[0], parts[1..];
      var s1, x, y, s2 := Cut(s, a, Concat(rest));
      if x == [] {
        assert a == Quote(s1) && Concat(rest) == Quote(s2);
        AlignedRest(rest, s1, s2);
        BeforeWhole(rest, s1, s2, flushes);
      } else {
        SafeAfterPair(s1, s2);
        SecondPart(x, y);
        PartsAfter(rest, y, s2, flushes);
        WrongInside(Kept(a, flushes), KeptAll(rest, flushes), [], s1, s2);
        assert [] + s == s;
      }
    }
  }

  lemma {:induction false} BeforeWhole(rest: seq<seq<byte>>, s1: seq<byte>, s2: seq<byte>, flushes: byte -> bool)
    requires Safe(s1 + s2) && Concat(rest) == Quote(s2)
    ensures var w := Kept(Quote(s1), flushes) + KeptAll(rest, flushes);
            if Aligned(rest, s2, 0) then w == s1 + s2 else EndsWrong(w, s1 + s2)
    decreases |rest|, 1
  {
    SafePrefix(s1, s2);
    SafeSuffix(s1, s2);
    Restores(s1, flushes);
    Parts(rest, s2, flushes);
    if !Aligned(rest, s2, 0) { WrongLater(s1, KeptAll(rest, flushes), s1, s2); }
  }

  lemma SafeAfterPair(s1: seq<byte>, s2: seq<byte>)
    requires Safe(s1 + ([FF, FF] + s2))
    ensures Safe(s2)
  {
    Regroup(s1, [FF, FF], s2);
    SafeSuffix(s1 + [FF, FF], s2);
  }

  lemma WrongInside(k: seq<byte>, w: seq<byte>, l: seq<byte>, s1: seq<byte>, s2: seq<byte>)
    requires EndsWrong(w, [FF] + s2)
    ensures EndsWrong(k + w, l + (s1 + ([FF, FF] + s2)))
  {
    WrongLater(k, w, l + s1 + [FF], [FF] + s2);
    assert l + s1 + [FF] + ([FF] + s2) == l + (s1 + ([FF, FF] + s2));
  }

  /** What is left of the rest of a pair when some of it has come. */
  lemma LessOfQuote(y: seq<byte>, n: nat)
    requires (y == [FF, Q, Q] || y == [Q, Q] || y == [Q]) && n < |y|
    ensures y[n..] == [FF, Q, Q] || y[n..] == [Q, Q] || y[n..] == [Q]
  {
  }

  /** The reads after a quoted pair was cut, of which y is still to come. */
  lemma {:induction false} PartsAfter(parts: seq<seq<byte>>, y: seq<byte>, s: seq<byte>, flushes: byte -> bool)
    requires y == [FF, Q, Q] || y == [Q, Q] || y == [Q]
    requires Safe(s) && Concat(parts) == y + Quote(s)
    ensures EndsWrong(KeptAll(parts, flushes), [FF] + s)
    decreases |parts|, 1
  {
    var b, rest := parts[0], parts[1..];
    Halves(b, Concat(rest), y, Quote(s));
    if |b| < |y| {
      LessOfQuote(y, |b|);
      PartsAfter(rest, y[|b|..], s, flushes);
      WrongLater(Kept(b, flushes), KeptAll(rest, flushes), [], [FF] + s);
      assert [] + ([FF] + s) == [FF] + s;
    } else {
      PairEnds(b, rest, y, s, b[|y|..], flushes);
    }
  }

  /** The read in which the pair ends. */
  lemma {:induction false} PairEnds(b: seq<byte>, rest: seq<seq<byte>>, y: seq<byte>, s: seq<byte>, b': seq<byte>,
                                    flushes: byte -> bool)
    requires y == [FF, Q, Q] || y == [Q, Q] || y == [Q]
    requires Safe(s) && b == y + b' && b' + Concat(rest) == Quote(s)
    ensures EndsWrong(Kept(b, flushes) + KeptAll(rest, flushes), [FF] + s)
    decreases |rest|, 3
  {
    var s1, x, y', s2 := Cut(s, b', Concat(rest));
    if x == [] {
      assert b' == Quote(s1) && Concat(rest) == Quote(s2);
      AfterWhole(rest, y, s1, s2, flushes);
    } else {
      SafeAfterPair(s1, s2);
      SecondPart(x, y');
      PartsAfter(rest, y', s2, flushes);
      WrongInside(Kept(b, flushes), KeptAll(rest, flushes), [FF], s1, s2);
    }
  }

  lemma {:induction false} AfterWhole(rest: seq<seq<byte>>, y: seq<byte>, s1: seq<byte>, s2: seq<byte>,
                                      flushes: byte -> bool)
    requires y == [FF, Q, Q] || y == [Q, Q] || y == [Q]
    requires Safe(s1 + s2) && Concat(rest) == Quote(s2)
    ensures EndsWrong(Kept(y + Quote(s1), flushes) + KeptAll(rest, flushes), [FF] + (s1 + s2))
    decreases |rest|, 2
  {
    SafePrefix(s1, s2);
    SafeSuffix(s1, s2);
    KeptQuote(y, s1, flushes);
    Parts(rest, s2, flushes);
    if Aligned(rest, s2, 0) {
      EndOfQuote(y, s1 + s2);
      Regroup(y, s1, s2);
    } else {
      WrongLater(y + s1, KeptAll(rest, flushes), [FF] + s1, s2);
      Regroup([FF], s1, s2);
    }
  }

  /**
   Quoted bytes that come in any number of reads are restored if and only if no read ends inside
   a quoted pair. (Bytes that are not safe are not restored in one read either.)
   */
  lemma ReadsRoundTrip(s: seq<byte>, parts: seq<seq<byte>>, flushes: byte -> bool)
    requires Safe(s) && Concat(parts) == Quote(s)
    ensures KeptAll(parts, flushes) == s <==> Aligned(parts, s, 0)
  {
    Parts(parts, s, flushes);
    if !Aligned(parts, s, 0) { WrongLater([], KeptAll(parts, flushes), [], s); }
  }

  function QuoteEach(pieces: seq<seq<byte>>): seq<seq<byte>> {
    if pieces == [] then [] else [Quote(pieces[0])] + QuoteEach(pieces[1..])
  }

  /** Reads that end between the bytes, whether these are safe or not: each piece has to be safe by itself. */
  lemma {:induction false} PiecesRoundTrip(pieces: seq<seq<byte>>, flushes: byte -> bool)
    ensures var w, s := KeptAll(QuoteEach(pieces), flushes), Concat(pieces);
            && |w| <= |s|
            && (w == s <==> forall k :: 0 <= k < |pieces| ==> Safe(pieces[k]))
    decreases |pieces|
  {
    if pieces != [] {
      var p, rest := pieces[0], pieces[1..];
      Restores(p, flushes);
      PiecesRoundTrip(rest, flushes);
      assert QuoteEach(pieces)[1..] == QuoteEach(rest);
      var a, b := Kept(Quote(p), flushes), KeptAll(QuoteEach(rest), flushes);
      SameLengths(a, b, p, Concat(rest));
      assert (forall k :: 0 <= k < |pieces| ==> Safe(pieces[k])) <==>
             Safe(p) && forall k :: 0 <= k < |rest| ==> Safe(rest[k]) by {
        if Safe(p) && forall k :: 0 <= k < |rest| ==> Safe(rest[k]) {
          forall k | 0 <= k < |pieces| ensures Safe(pieces[k]) {
            if k > 0 { assert pieces[k] == rest[k - 1]; }
          }
        }
        if forall k :: 0 <= k < |pieces| ==> Safe(pieces[k]) {
          forall k | 0 <= k < |rest| ensures Safe(rest[k]) {
            assert rest[k] == pieces[k + 1];
          }
        }
      }
    }
  }

  lemma SameLengths(a: seq<byte>, b: seq<byte>, p: seq<byte>, q: seq<byte>)
    requires |a| <= |p| && |b| <= |q|
    ensures a + b == p + q <==> a == p && b == q
  {
    if a + b == p + q { Halves(a, b, p, q); }
  }
}
