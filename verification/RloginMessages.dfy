/**
 Control messages among the quoted bytes: what krlogin keeps of data that krlogind has quoted and
 of the one-byte messages it sends in between (krlogin.c).
 */
module RloginMessages {
  import opened Bytes
  import opened Options
  import opened Sequences
  import opened RloginQuote

  /** A one-byte message as krlogind sends it. */
  function Sent(c: byte): seq<byte> {
    [0xFF, 0xFF, 0x6F, 0x6F, c]
  }

  /** The quoted bytes of a, then a message, then t. */
  function With(a: seq<byte>, c: byte, t: seq<byte>): seq<byte> {
    Quote(a) + (Sent(c) + t)
  }

  lemma UnquoteMessage(c: byte, t: seq<byte>, flushes: byte -> bool)
    ensures Unquote(Sent(c) + t, flushes) == if flushes(c) then None else Unquote(t, flushes)
  {
    assert (Sent(c) + t)[5..] == t;
  }

  lemma PrependTwo(a: seq<byte>, b: seq<byte>, r: Option<seq<byte>>)
    ensures Prepend(a, Prepend(b, r)) == Prepend(a + b, r)
  {
    if r.Some? { Regroup(a, b, r.value); }
  }

  /** A byte in front that does not start a pair. */
  lemma PassOver(c: byte, q: seq<byte>, a: seq<byte>, r: Option<seq<byte>>, flushes: byte -> bool)
    requires !Pair([c] + q) || !(Message([c] + q) || Quoted([c] + q))
    requires Unquote(q, flushes) == Prepend(a, r)
    ensures Unquote([c] + q, flushes) == Prepend([c] + a, r)
  {
    UnquoteCons(c, q, flushes);
    PrependTwo([c], a, r);
  }

  lemma QuotePair(a: seq<byte>, t: seq<byte>)
    requires Pair(a)
    ensures Quote(a) + t == [FF, FF, Q, Q] + (Quote(a[2..]) + t)
  {
    Regroup([FF, FF, Q, Q], Quote(a[2..]), t);
  }

  lemma QuoteByte(a: seq<byte>, t: seq<byte>)
    requires a != [] && !Pair(a)
    ensures Quote(a) + t == [a[0]] + (Quote(a[1..]) + t)
  {
    Regroup([a[0]], Quote(a[1..]), t);
  }

  /** Bytes that no 0377 follows confusingly come through, whatever comes after the message. */
  lemma {:induction false} Before(a: seq<byte>, c: byte, t: seq<byte>, flushes: byte -> bool)
    requires Safe(a + [FF])
    ensures Unquote(With(a, c, t), flushes) == Prepend(a, Unquote(Sent(c) + t, flushes))
    decreases |a|, 1
  {
    var m := Sent(c) + t;
    var r := Unquote(m, flushes);
    if a == [] {
      assert With(a, c, t) == m;
      if r.Some? { assert [] + r.value == r.value; }
    } else {
      assert a == [a[0]] + a[1..] && (a + [FF])[1..] == a[1..] + [FF];
      if Pair(a) {
        QuotePair(a, m);
        var w := Quote(a) + m;
        assert w[4..] == Quote(a[2..]) + m && Pair(w) && Quoted(w) && !Message(w);
        assert a == [FF, FF] + a[2..] && a + [FF] == [FF, FF] + a[2..] + [FF];
        BeforeAfterTwo(a[2..], c, t, flushes);
      } else {
        QuoteByte(a, m);
        if a[0] == FF {
          BeforeAfterOne(a[1..], c, t, flushes);
        } else {
          Before(a[1..], c, t, flushes);
          PassOver(a[0], Quote(a[1..]) + m, a[1..], r, flushes);
        }
      }
    }
  }

  /** A 0377 byte in front starts no pair, or one that another 0377 byte follows. */
  lemma OneAlone(a: seq<byte>, c: byte, t: seq<byte>)
    requires a == [] || a[0] != FF || Pair(a)
    ensures var w := [FF] + With(a, c, t); !Pair(w) || !(Message(w) || Quoted(w))
  {
    var m := Sent(c) + t;
    if a == [] {
      assert With(a, c, t) == m;
    } else if Pair(a) {
      QuotePair(a, m);
    } else {
      QuoteByte(a, m);
    }
  }

  lemma TwoInFront(a: seq<byte>, c: byte, t: seq<byte>)
    requires a != [] && a[0] == FF && !Pair(a)
    ensures [FF] + With(a, c, t) == [FF, FF] + With(a[1..], c, t)
    ensures [FF] + a == [FF, FF] + a[1..]
  {
    QuoteByte(a, Sent(c) + t);
  }

  lemma {:induction false} BeforeAfterOne(a: seq<byte>, c: byte, t: seq<byte>, flushes: byte -> bool)
    requires Safe([FF] + a + [FF])
    ensures Unquote([FF] + With(a, c, t), flushes) == Prepend([FF] + a, Unquote(Sent(c) + t, flushes))
    decreases |a|, 2
  {
    assert ([FF] + a + [FF])[1..] == a + [FF];
    if a != [] && a[0] == FF && !Pair(a) {
      TwoInFront(a, c, t);
      BeforeAfterTwo(a[1..], c, t, flushes);
    } else {
      Before(a, c, t, flushes);
      OneAlone(a, c, t);
      PassOver(FF, With(a, c, t), a, Unquote(Sent(c) + t, flushes), flushes);
    }
  }

  lemma {:induction false} BeforeAfterTwo(a: seq<byte>, c: byte, t: seq<byte>, flushes: byte -> bool)
    requires Safe([FF, FF] + a + [FF])
    ensures Unquote([FF, FF] + With(a, c, t), flushes) == Prepend([FF, FF] + a, Unquote(Sent(c) + t, flushes))
    decreases |a|, 3
  {
    var s := [FF, FF] + a + [FF];
    assert s[1..] == [FF] + a + [FF] && s[2..] == a + [FF];
    BeforeAfterOne(a, c, t, flushes);
    FirstBytes(a, c, t);
    PairVerdict(With(a, c, t));
    Split(With(a, c, t));
    Split(a);
    PassOver(FF, [FF] + With(a, c, t), [FF] + a, Unquote(Sent(c) + t, flushes), flushes);
  }

  /** In front of a message, the quoted bytes begin confusingly only if the bytes themselves do. */
  lemma FirstBytes(a: seq<byte>, c: byte, t: seq<byte>)
    ensures Confusing(With(a, c, t)) ==> Confusing(a + [FF])
  {
    var m := Sent(c) + t;
    if Pair(a) {
      QuotePair(a, m);
    } else if a != [] {
      QuoteByte(a, m);
      if |a| > 1 { FirstByte(a[1..], m); }
    }
  }

  lemma FirstByte(a: seq<byte>, m: seq<byte>)
    requires a != []
    ensures (Quote(a) + m)[0] == a[0]
  {
  }

  /** Data quoted, with a message after each piece but the last. */
  function Stream(pieces: seq<(seq<byte>, byte)>, last: seq<byte>): seq<byte> {
    if pieces == [] then Quote(last) else With(pieces[0].0, pieces[0].1, Stream(pieces[1..], last))
  }

  function Data(pieces: seq<(seq<byte>, byte)>, last: seq<byte>): seq<byte> {
    if pieces == [] then last else pieces[0].0 + Data(pieces[1..], last)
  }

  /** All messages are taken out and all data comes through, unless a message empties the buffer. */
  lemma {:induction false} AroundMessages(pieces: seq<(seq<byte>, byte)>, last: seq<byte>, flushes: byte -> bool)
    requires Safe(last) && forall p :: p in pieces ==> Safe(p.0 + [0xFF])
    ensures Unquote(Stream(pieces, last), flushes) ==
            if exists p :: p in pieces && flushes(p.1) then None else Some(Data(pieces, last))
    decreases |pieces|
  {
    if pieces == [] {
      Restores(last, flushes);
    } else {
      var p, rest := pieces[0], pieces[1..];
      assert pieces == [p] + rest;
      AroundMessages(rest, last, flushes);
      Before(p.0, p.1, Stream(rest, last), flushes);
      UnquoteMessage(p.1, Stream(rest, last), flushes);
    }
  }

  /** One message that does not flush, between two pieces. */
  lemma AroundOne(a: seq<byte>, c: byte, b: seq<byte>, flushes: byte -> bool)
    requires Safe(a + [0xFF]) && Safe(b) && !flushes(c)
    ensures Kept(Quote(a) + Sent(c) + Quote(b), flushes) == a + b
  {
    Before(a, c, Quote(b), flushes);
    UnquoteMessage(c, Quote(b), flushes);
    Restores(b, flushes);
    Regroup(Quote(a), Sent(c), Quote(b));
  }

  /** A message that flushes takes everything with it: what came before it, and what came after. */
  lemma FlushTakesAll(a: seq<byte>, c: byte, t: seq<byte>, flushes: byte -> bool)
    requires Safe(a + [0xFF]) && flushes(c)
    ensures Kept(Quote(a) + Sent(c) + t, flushes) == []
  {
    Before(a, c, t, flushes);
    UnquoteMessage(c, t, flushes);
    Regroup(Quote(a), Sent(c), t);
  }

  /** The window request, and then "hi". */
  lemma WindowRequest(flushes: byte -> bool)
    requires !flushes(0x80)
    ensures Unquote([0xFF, 0xFF, 0x6F, 0x6F, 0x80, 0x68, 0x69], flushes) == Some([0x68, 0x69])
    ensures Quote([0xFF, 0xFF]) == [0xFF, 0xFF, 0x71, 0x71]
  {
    assert [0xFF, 0xFF, 0x6F, 0x6F, 0x80, 0x68, 0x69] == Sent(0x80) + [0x68, 0x69];
    UnquoteMessage(0x80, [0x68, 0x69], flushes);
    assert Quote([0x68, 0x69]) == [0x68, 0x69];
    Restores([0x68, 0x69], flushes);
    assert [FF, FF][2..] == [] && Quote([FF, FF]) == [FF, FF, Q, Q] + Quote([]);
  }
}
