/**
 The escape scanner of krlogin (krlogin.c): `read_wrapper` hands the terminal input on in
 chunks that end at an escape character at the beginning of a line, and `writer` acts on the
 character after it. How the input is cut into reads and chunks should not matter. It does
 not, as long as no question is asked: the answer to "kill session?" is read from the terminal,
 past what `read_wrapper` has buffered.
 */
module RloginEscape {
  import opened Bytes
  import opened Options
  import opened Sequences

  /** The characters that matter, and whether the user is asked before the session is killed (-c). */
  datatype Terminal = Terminal(
    cmdchar: byte, endsLine: byte -> bool, quits: byte -> bool, suspends: byte -> bool, confirm: bool)

  /** What can be seen from outside: bytes go to the server, a question is answered, the process stops. */
  datatype Event = Sent(b: byte) | Answered(a: Option<byte>) | Stopped

  const TBUF: nat := 1024

  /** y, Y, control-D and the end of the input mean yes. */
  predicate Yes(answer: Option<byte>) {
    answer.None? || answer.value == 'y' as int || answer.value == 'Y' as int || answer.value == 4
  }

  // ----- The beginning of a line -----

  /** Whether the next byte is at the beginning of a line, after byte c. */
  function NextBol(t: Terminal, bol: bool, c: byte): bool {
    if bol && c == t.cmdchar then false else t.endsLine(c)
  }

  function BolAfter(t: Terminal, bol: bool, s: seq<byte>): bool {
    if s == [] then bol else NextBol(t, BolAfter(t, bol, s[..|s| - 1]), s[|s| - 1])
  }

  /** The i-th byte of the stream is an escape. */
  predicate EscapeAt(t: Terminal, bol: bool, s: seq<byte>, i: nat)
    requires i < |s|
  {
    BolAfter(t, bol, s[..i]) && s[i] == t.cmdchar
  }

  /** Escapes are a matter of the stream alone, wherever it is cut. */
  lemma {:induction false} BolAfterConcat(t: Terminal, bol: bool, a: seq<byte>, b: seq<byte>)
    ensures BolAfter(t, bol, a + b) == BolAfter(t, BolAfter(t, bol, a), b)
    decreases |b|
  {
    if b == [] {
      assert a + b == a;
    } else {
      assert (a + b)[..|a + b| - 1] == a + b[..|b| - 1];
      BolAfterConcat(t, bol, a, b[..|b| - 1]);
    }
  }

  lemma EscapeAtConcat(t: Terminal, bol: bool, a: seq<byte>, b: seq<byte>, i: nat)
    requires i < |b|
    ensures EscapeAt(t, bol, a + b, |a| + i) <==> EscapeAt(t, BolAfter(t, bol, a), b, i)
  {
    assert (a + b)[..|a| + i] == a + b[..i];
    BolAfterConcat(t, bol, a, b[..i]);
  }

  // ----- What a run does, for given reads -----

  /**
   How many bytes the terminal delivers when u are left and as many as possible are asked for.
   A run makes at most one such read for each u, so that `cuts` stands for any sequence of reads.
   */
  function Delivered(cuts: nat -> nat, u: nat): (n: nat)
    requires u > 0
    ensures 1 <= n <= u && n <= TBUF
  {
    if cuts(u) == 0 then 1
    else if cuts(u) <= u && cuts(u) <= TBUF then cuts(u)
    else if u <= TBUF then u else TBUF
  }

  /** Buffered and undelivered bytes, when a byte is wanted. */
  function Refill(cuts: nat -> nat, tbuf: seq<byte>, unread: seq<byte>): (r: (seq<byte>, seq<byte>))
    ensures r.0 + r.1 == tbuf + unread
    ensures r.0 == [] <==> tbuf + unread == []
    ensures |tbuf| <= TBUF ==> |r.0| <= TBUF
  {
    if tbuf != [] || unread == [] then (tbuf, unread)
    else
      var n := Delivered(cuts, |unread|);
      (unread[..n], unread[n..])
  }

  /** The answer to the question, and what is left to be delivered then. */
  function Ask(unread: seq<byte>): (Option<byte>, seq<byte>) {
    if unread == [] then (None, []) else (Some(unread[0]), unread[1..])
  }

  /** What is done with the character after an escape, if the session goes on. */
  function Reply(t: Terminal, c: byte): seq<Event> {
    if t.suspends(c) then [Stopped]
    else (if c != t.cmdchar then [Sent(t.cmdchar)] else []) + [Sent(c)]
  }

  function Run(t: Terminal, cuts: nat -> nat, bol: bool, tbuf: seq<byte>, unread: seq<byte>): seq<Event>
    decreases |tbuf| + |unread|
  {
    var (b, u) := Refill(cuts, tbuf, unread);
    assert |b| + |u| == |b + u| == |tbuf + unread|;
    if b == [] then []
    else if bol && b[0] == t.cmdchar then RunEscape(t, cuts, b[1..], u)
    else [Sent(b[0])] + Run(t, cuts, t.endsLine(b[0]), b[1..], u)
  }

  /** After an escape character. */
  function RunEscape(t: Terminal, cuts: nat -> nat, tbuf: seq<byte>, unread: seq<byte>): seq<Event>
    decreases |tbuf| + |unread|
  {
    var (b, u) := Refill(cuts, tbuf, unread);
    assert |b| + |u| == |b + u| == |tbuf + unread|;
    if b == [] then []
    else
      var c := b[0];
      if t.quits(c) && !t.confirm then []
      else if t.quits(c) then
        var (answer, u') := Ask(u);
        [Answered(answer)] + if Yes(answer) then [] else Reply(t, c) + Run(t, cuts, t.endsLine(c), b[1..], u')
      else Reply(t, c) + Run(t, cuts, t.endsLine(c), b[1..], u)
  }

  // ----- read_wrapper -----

  lemma EscapeAtPrefix(t: Terminal, bol: bool, s: seq<byte>, n: nat, j: nat)
    requires j < n <= |s|
    ensures EscapeAt(t, bol, s[..n], j) <==> EscapeAt(t, bol, s, j)
  {
    assert s[..n][..j] == s[..j];
  }

  lemma BolAfterStep(t: Terminal, bol: bool, s: seq<byte>, n: nat)
    requires n < |s|
    ensures BolAfter(t, bol, s[..n + 1]) == NextBol(t, BolAfter(t, bol, s[..n]), s[n])
  {
    assert s[..n + 1][..n] == s[..n];
  }

  /** Goes through the buffered bytes up to an escape, the end or the size asked for. */
  method ScanChunk(t: Terminal, bol: bool, tbuf: seq<byte>, size: nat) returns (n: nat, bol': bool, gotEsc: bool)
    ensures n <= |tbuf| && n <= size && bol' == BolAfter(t, bol, tbuf[..n])
    ensures forall j :: 0 <= j < n ==> (EscapeAt(t, bol, tbuf[..n], j) <==> gotEsc && j == n - 1)
    ensures if gotEsc then n > 0 else n == |tbuf| || n == size
  {
    n, bol', gotEsc := 0, bol, false;
    while n < |tbuf| && n < size
      invariant n <= |tbuf| && n <= size && !gotEsc
      invariant bol' == BolAfter(t, bol, tbuf[..n])
      invariant forall j :: 0 <= j < n ==> !EscapeAt(t, bol, tbuf, j)
    {
      var c := tbuf[n];
      BolAfterStep(t, bol, tbuf, n);
      n := n + 1;
      if bol' && c == t.cmdchar {
        bol' := false;
        gotEsc := true;
        break;
      }
      bol' := t.endsLine(c);
    }
    forall j | 0 <= j < n ensures EscapeAt(t, bol, tbuf[..n], j) <==> EscapeAt(t, bol, tbuf, j) {
      EscapeAtPrefix(t, bol, tbuf, n, j);
    }
  }

  class Input {
    const t: Terminal
    const cuts: nat -> nat
    var unread: seq<byte>   // what the terminal will still deliver
    var tbuf: seq<byte>     // what has been read and not handed on
    var bol: bool

    constructor (t: Terminal, cuts: nat -> nat, all: seq<byte>)
      ensures this.t == t && this.cuts == cuts && unread == all && tbuf == [] && bol
    {
      this.t, this.cuts := t, cuts;
      unread, tbuf, bol := all, [], true;
    }

    function Rest(): seq<byte>
      reads this
    {
      tbuf + unread
    }

    /** What remains to be done. */
    ghost function Ahead(): seq<Event>
      reads this
    {
      Run(t, cuts, bol, tbuf, unread)
    }

    /**
     The next chunk, at most size bytes; none at the end of the input. It is the beginning of
     what is buffered, after a read if nothing was.
     */
    method ReadWrapper(size: nat) returns (chunk: seq<byte>, gotEsc: bool)
      modifies this
      ensures (chunk + tbuf, unread) == Refill(cuts, old(tbuf), old(unread)) && |chunk| <= size
      ensures chunk + Rest() == old(Rest())
      ensures bol == BolAfter(t, old(bol), chunk)
      ensures forall i :: 0 <= i < |chunk| ==> (EscapeAt(t, old(bol), chunk, i) <==> gotEsc && i == |chunk| - 1)
      ensures gotEsc ==> chunk != []
      ensures size > 0 && old(Rest()) != [] ==> chunk != []
    {
      chunk, gotEsc := [], false;
      if tbuf == [] {
        if unread == [] { return; }
        var n := Delivered(cuts, |unread|);
        tbuf, unread := unread[..n], unread[n..];
      }
      ghost var filled := tbuf;
      var i: nat;
      i, bol, gotEsc := ScanChunk(t, bol, tbuf, size);
      chunk, tbuf := tbuf[..i], tbuf[i..];
      assert chunk + tbuf == filled;
      Regroup(chunk, tbuf, unread);
    }

    /** confirm_death: without -c the answer is yes; else it is the next byte the terminal delivers. */
    method ConfirmDeath() returns (yes: bool, shown: seq<Event>)
      modifies this`unread
      ensures if !t.confirm then yes && shown == [] && unread == old(unread)
              else var (answer, u) := Ask(old(unread)); yes == Yes(answer) && shown == [Answered(answer)] && unread == u
    {
      if !t.confirm { return true, []; }
      var answer: Option<byte> := None;
      if unread != [] {
        answer, unread := Some(unread[0]), unread[1..];
      }
      return Yes(answer), [Answered(answer)];
    }
  }

  // ----- writer -----

  function SentAll(s: seq<byte>): seq<Event> {
    if s == [] then [] else [Sent(s[0])] + SentAll(s[1..])
  }

  /** Passing over a first byte that is no escape. */
  lemma PastFirst(t: Terminal, bol: bool, c: byte, rest: seq<byte>)
    requires forall i :: 0 <= i < |[c] + rest| ==> !EscapeAt(t, bol, [c] + rest, i)
    ensures !(bol && c == t.cmdchar) && BolAfter(t, bol, [c] + rest) == BolAfter(t, t.endsLine(c), rest)
    ensures forall i :: 0 <= i < |rest| ==> !EscapeAt(t, t.endsLine(c), rest, i)
  {
    assert !EscapeAt(t, bol, [c] + rest, 0) && ([c] + rest)[..0] == [];
    assert BolAfter(t, bol, [c]) == t.endsLine(c) by { assert [c][..0] == []; }
    forall i | 0 <= i < |rest| ensures !EscapeAt(t, t.endsLine(c), rest, i) {
      EscapeAtConcat(t, bol, [c], rest, i);
      assert !EscapeAt(t, bol, [c] + rest, 1 + i);
    }
    BolAfterConcat(t, bol, [c], rest);
  }

  lemma RunFirst(t: Terminal, cuts: nat -> nat, bol: bool, c: byte, tbuf: seq<byte>, unread: seq<byte>)
    requires !(bol && c == t.cmdchar)
    ensures Run(t, cuts, bol, [c] + tbuf, unread) == [Sent(c)] + Run(t, cuts, t.endsLine(c), tbuf, unread)
  {
    assert ([c] + tbuf)[1..] == tbuf;
  }

  /** Buffered input without an escape is sent as it is. */
  lemma {:induction false} RunPlain(t: Terminal, cuts: nat -> nat, bol: bool, a: seq<byte>,
                                    tbuf: seq<byte>, unread: seq<byte>)
    requires forall i :: 0 <= i < |a| ==> !EscapeAt(t, bol, a, i)
    ensures Run(t, cuts, bol, a + tbuf, unread) == SentAll(a) + Run(t, cuts, BolAfter(t, bol, a), tbuf, unread)
    decreases |a|
  {
    if a == [] {
      assert a + tbuf == tbuf;
    } else {
      var c, a' := a[0], a[1..];
      assert a == [c] + a';
      PastFirst(t, bol, c, a');
      RunFirst(t, cuts, bol, c, a' + tbuf, unread);
      RunPlain(t, cuts, t.endsLine(c), a', tbuf, unread);
      Regroup([c], a', tbuf);
      Regroup([Sent(c)], SentAll(a'), Run(t, cuts, BolAfter(t, bol, a), tbuf, unread));
    }
  }

  /** A chunk that ends in an escape: all but the escape is sent as it is. */
  lemma RunToEscape(t: Terminal, cuts: nat -> nat, bol: bool, chunk: seq<byte>, tbuf: seq<byte>, unread: seq<byte>)
    requires chunk != []
    requires forall i :: 0 <= i < |chunk| ==> (EscapeAt(t, bol, chunk, i) <==> i == |chunk| - 1)
    ensures Run(t, cuts, bol, chunk + tbuf, unread) ==
            SentAll(chunk[..|chunk| - 1]) + RunEscape(t, cuts, tbuf, unread)
    ensures !BolAfter(t, bol, chunk)
  {
    var plain := chunk[..|chunk| - 1];
    forall i | 0 <= i < |plain| ensures !EscapeAt(t, bol, plain, i) {
      assert plain[..i] == chunk[..i];
      assert !EscapeAt(t, bol, chunk, i);
    }
    assert EscapeAt(t, bol, chunk, |chunk| - 1);
    assert chunk + tbuf == plain + ([t.cmdchar] + tbuf);
    RunPlain(t, cuts, bol, plain, [t.cmdchar] + tbuf, unread);
    assert ([t.cmdchar] + tbuf)[1..] == tbuf;
  }

  /** Reads the character after an escape and acts on it. */
  method AfterEscape(input: Input, events: seq<Event>) returns (done: bool, events': seq<Event>)
    requires !input.bol
    modifies input
    ensures var all := events + old(RunEscape(input.t, input.cuts, input.tbuf, input.unread));
            if done then events' == all
            else |input.Rest()| < old(|input.Rest()|) && events' + input.Ahead() == all
  {
    var t := input.t;
    var after, _ := input.ReadWrapper(1);
    if after == [] {
      assert input.tbuf + input.unread == [];
      return true, events;
    }
    var c := after[0];
    assert after == [c] && BolAfter(t, false, [c]) == t.endsLine(c) by { assert [c][..0] == []; }
    assert ([c] + input.tbuf)[1..] == input.tbuf;
    ghost var u := input.unread;
    events' := events;
    if t.quits(c) {
      var yes, shown := input.ConfirmDeath();
      events' := events + shown;
      if yes { return true, events'; }
    }
    ghost var asked := events';
    if t.suspends(c) {
      events' := events' + [Stopped];
    } else {
      if c != t.cmdchar { events' := events' + [Sent(t.cmdchar)]; }
      events' := events' + [Sent(c)];
    }
    assert events' == asked + Reply(t, c);
    Regroup(asked, Reply(t, c), input.Ahead());
    if t.quits(c) { Regroup(events, [Answered(Ask(u).0)], Reply(t, c) + input.Ahead()); }
    return false, events';
  }

  /** One chunk of input is read and sent, with the character after it if it ends in an escape. */
  method WriteChunk(input: Input, bufsize: nat, events: seq<Event>) returns (done: bool, events': seq<Event>)
    requires bufsize > 0
    modifies input
    ensures var all := events + old(input.Ahead());
            if done then events' == all
            else |input.Rest()| < old(|input.Rest()|) && events' + input.Ahead() == all
  {
    var t := input.t;
    ghost var bol := input.bol;
    var chunk, gotEsc := input.ReadWrapper(bufsize);
    if chunk == [] { return true, events; }
    RefillOnce(t, input.cuts, bol, old(input.tbuf), old(input.unread));
    if !gotEsc {
      RunPlain(t, input.cuts, bol, chunk, input.tbuf, input.unread);
      Regroup(events, SentAll(chunk), input.Ahead());
      events', done := events + SentAll(chunk), false;
    } else {
      RunToEscape(t, input.cuts, bol, chunk, input.tbuf, input.unread);
      var plain := chunk[..|chunk| - 1];
      Regroup(events, SentAll(plain), RunEscape(t, input.cuts, input.tbuf, input.unread));
      events' := events;
      if |chunk| > 1 { events' := events + SentAll(plain); }
      assert events' == events + SentAll(plain);
      done, events' := AfterEscape(input, events');
    }
  }

  lemma RefillOnce(t: Terminal, cuts: nat -> nat, bol: bool, tbuf: seq<byte>, unread: seq<byte>)
    ensures var (b, u) := Refill(cuts, tbuf, unread);
            Run(t, cuts, bol, tbuf, unread) == Run(t, cuts, bol, b, u)
  {
    var (b, u) := Refill(cuts, tbuf, unread);
    assert Refill(cuts, b, u) == (b, u);
  }

  /** The loop of `writer`: with given reads, the size of its buffer does not matter. */
  method Writer(input: Input, bufsize: nat) returns (events: seq<Event>)
    requires bufsize > 0
    modifies input
    ensures events == old(input.Ahead())
  {
    events := [];
    var done := false;
    while !done
      invariant events + (if done then [] else input.Ahead()) == old(input.Ahead())
      decreases !done, |input.Rest()|
    {
      done, events := WriteChunk(input, bufsize, events);
    }
  }

  // ----- When the reads do not matter -----

  /** What is done for input s if it is read byte by byte: an answer is the byte that comes next. */
  function Sends(t: Terminal, bol: bool, s: seq<byte>): seq<Event>
    decreases |s|
  {
    if s == [] then []
    else if bol && s[0] == t.cmdchar then SendsEscape(t, s[1..])
    else [Sent(s[0])] + Sends(t, t.endsLine(s[0]), s[1..])
  }

  function SendsEscape(t: Terminal, s: seq<byte>): seq<Event>
    decreases |s|
  {
    if s == [] then []
    else
      var c := s[0];
      if t.quits(c) && !t.confirm then []
      else if t.quits(c) then
        var (answer, rest) := Ask(s[1..]);
        [Answered(answer)] + if Yes(answer) then [] else Reply(t, c) + Sends(t, t.endsLine(c), rest)
      else Reply(t, c) + Sends(t, t.endsLine(c), s[1..])
  }

  /** One byte less, two, three. */
  lemma FirstBytes(a: byte, b: byte, s: seq<byte>)
    ensures ([a, b] + s)[0] == a && ([a, b] + s)[1..] == [b] + s && ([b] + s)[0] == b && ([b] + s)[1..] == s
  {
  }

  /** What becomes of an escape and the character after it, if that does not end the session. */
  lemma SendsAfterEscape(t: Terminal, c: byte, rest: seq<byte>)
    requires !t.quits(c)
    ensures Sends(t, true, [t.cmdchar, c] + rest) ==
            (if t.suspends(c) then [Stopped] else if c == t.cmdchar then [Sent(t.cmdchar)]
             else [Sent(t.cmdchar), Sent(c)]) + Sends(t, t.endsLine(c), rest)
  {
    FirstBytes(t.cmdchar, c, rest);
    assert Sends(t, true, [t.cmdchar, c] + rest) == SendsEscape(t, [c] + rest);
  }

  /** A character that ends the session does so at once or, with -c, on the answers y, Y and control-D. */
  lemma SendsAfterQuit(t: Terminal, c: byte, answer: byte, rest: seq<byte>)
    requires t.quits(c)
    ensures Sends(t, true, [t.cmdchar, c] + ([answer] + rest)) ==
            if !t.confirm then []
            else if answer == 121 || answer == 89 || answer == 4 then [Answered(Some(answer))]
            else [Answered(Some(answer))] +
                 ((if t.suspends(c) then [Stopped] else if c == t.cmdchar then [Sent(t.cmdchar)]
                   else [Sent(t.cmdchar), Sent(c)]) + Sends(t, t.endsLine(c), rest))
  {
    FirstBytes(t.cmdchar, c, [answer] + rest);
    FirstBytes(c, answer, rest);
    assert Sends(t, true, [t.cmdchar, c] + ([answer] + rest)) == SendsEscape(t, [c] + ([answer] + rest));
  }

  /** The bytes with every escape among them doubled. */
  function Doubled(t: Terminal, bol: bool, s: seq<byte>): seq<byte>
    decreases |s|
  {
    if s == [] then []
    else (if bol && s[0] == t.cmdchar then [t.cmdchar] else []) + ([s[0]] + Doubled(t, t.endsLine(s[0]), s[1..]))
  }

  /** Any bytes at all can be sent, by doubling the escapes, and however they are read. */
  lemma {:induction false} DoubledArrives(t: Terminal, bol: bool, s: seq<byte>)
    requires !t.quits(t.cmdchar) && !t.suspends(t.cmdchar)
    ensures Sends(t, bol, Doubled(t, bol, s)) == SentAll(s) && Settled(t, bol, Doubled(t, bol, s))
    decreases |s|
  {
    if s != [] {
      var c, d := s[0], Doubled(t, t.endsLine(s[0]), s[1..]);
      DoubledArrives(t, t.endsLine(c), s[1..]);
      var w := Doubled(t, bol, s);
      FirstBytes(c, c, d);
      if bol && c == t.cmdchar {
        assert w == [c, c] + d;
        SendsAfterEscape(t, c, d);
        assert Settled(t, bol, w) <==> SettledEscape(t, [c] + d);
      } else {
        assert w == [c] + d;
      }
    }
  }

  /** The next buffer full of bytes is there and is one byte over and over. */
  predicate Uniform(s: seq<byte>) {
    |s| >= 1024 && forall k :: 0 <= k < 1024 ==> s[k] == s[0]
  }

  /** Whenever the question is asked, nothing follows it, or a whole buffer of the same byte. */
  predicate Settled(t: Terminal, bol: bool, s: seq<byte>)
    decreases |s|
  {
    if s == [] then true
    else if bol && s[0] == t.cmdchar then SettledEscape(t, s[1..])
    else Settled(t, t.endsLine(s[0]), s[1..])
  }

  predicate SettledEscape(t: Terminal, s: seq<byte>)
    decreases |s|
  {
    if s == [] then true
    else
      var c, rest := s[0], s[1..];
      if t.quits(c) && !t.confirm then true
      else if t.quits(c) then
        rest == [] || (Uniform(rest) && (Yes(Some(rest[0])) || Settled(t, t.endsLine(c), rest[1..])))
      else Settled(t, t.endsLine(c), rest)
  }

  /** Without -c nothing is ever asked. */
  lemma {:induction false} SettledUnasked(t: Terminal, bol: bool, s: seq<byte>)
    requires !t.confirm
    ensures Settled(t, bol, s)
    decreases |s|
  {
    if s != [] {
      if !(bol && s[0] == t.cmdchar) {
        SettledUnasked(t, t.endsLine(s[0]), s[1..]);
      } else if |s| > 1 && !t.quits(s[1]) {
        assert s[1..][0] == s[1];
        SettledUnasked(t, t.endsLine(s[1]), s[1..][1..]);
      }
    }
  }

  /** A byte taken out of a stretch of equal ones: it does not matter which. */
  lemma TakenFromUniform(s: seq<byte>, k: nat)
    requires Uniform(s) && k < TBUF
    ensures s[k] == s[0] && s[..k] + s[k + 1..] == s[1..]
  {
    var a := s[..k] + s[k + 1..];
    forall i | 0 <= i < |a| ensures a[i] == s[1..][i] {
      if i < k { assert s[i] == s[0] && s[i + 1] == s[0]; }
    }
  }

  lemma {:induction false} RunSettled(t: Terminal, cuts: nat -> nat, bol: bool, tbuf: seq<byte>, unread: seq<byte>)
    requires |tbuf| <= TBUF && Settled(t, bol, tbuf + unread)
    ensures Run(t, cuts, bol, tbuf, unread) == Sends(t, bol, tbuf + unread)
    decreases |tbuf| + |unread|
  {
    var (b, u) := Refill(cuts, tbuf, unread);
    var s := tbuf + unread;
    assert |b| + |u| == |b + u| == |s|;
    if b != [] {
      assert b[1..] + u == s[1..] && b[0] == s[0];
      if bol && b[0] == t.cmdchar {
        RunEscapeSettled(t, cuts, b[1..], u);
      } else {
        RunSettled(t, cuts, t.endsLine(b[0]), b[1..], u);
      }
    }
  }

  lemma {:induction false} RunEscapeSettled(t: Terminal, cuts: nat -> nat, tbuf: seq<byte>, unread: seq<byte>)
    requires |tbuf| <= TBUF && SettledEscape(t, tbuf + unread)
    ensures RunEscape(t, cuts, tbuf, unread) == SendsEscape(t, tbuf + unread)
    decreases |tbuf| + |unread|
  {
    var (b, u) := Refill(cuts, tbuf, unread);
    var s := tbuf + unread;
    assert |b| + |u| == |b + u| == |s|;
    if b != [] {
      var c := b[0];
      assert b[1..] + u == s[1..] && c == s[0];
      if !t.quits(c) {
        RunSettled(t, cuts, t.endsLine(c), b[1..], u);
      } else if t.confirm {
        AskSettled(b[1..], u);
        var (answer, u') := Ask(u);
        if !Yes(answer) {
          RunSettled(t, cuts, t.endsLine(c), b[1..], u');
        }
      }
    }
  }

  /** In front of nothing or of a whole buffer of one byte, the answer is the one that comes next. */
  lemma AskSettled(tbuf: seq<byte>, unread: seq<byte>)
    requires |tbuf| < TBUF && (tbuf + unread == [] || Uniform(tbuf + unread))
    ensures Ask(unread).0 == Ask(tbuf + unread).0 && tbuf + Ask(unread).1 == Ask(tbuf + unread).1
  {
    var s := tbuf + unread;
    if s != [] {
      TakenFromUniform(s, |tbuf|);
      assert s[|tbuf|] == unread[0] && s[..|tbuf|] == tbuf && s[|tbuf| + 1..] == unread[1..];
    }
  }

  // ----- When they do -----

  /** Only the reads made when so much or less is left count. */
  ghost predicate Agree(r1: nat -> nat, r2: nat -> nat, n: nat) {
    forall u: nat :: u <= n ==> r1(u) == r2(u)
  }

  lemma {:induction false} RunAgrees(t: Terminal, r1: nat -> nat, r2: nat -> nat, bol: bool,
                                     tbuf: seq<byte>, unread: seq<byte>)
    requires Agree(r1, r2, |unread|)
    ensures Run(t, r1, bol, tbuf, unread) == Run(t, r2, bol, tbuf, unread)
    decreases |tbuf| + |unread|
  {
    var (b, u) := Refill(r1, tbuf, unread);
    assert |b| + |u| == |b + u| == |tbuf + unread|;
    assert Refill(r2, tbuf, unread) == (b, u);
    if b != [] {
      if bol && b[0] == t.cmdchar {
        RunEscapeAgrees(t, r1, r2, b[1..], u);
      } else {
        RunAgrees(t, r1, r2, t.endsLine(b[0]), b[1..], u);
      }
    }
  }

  lemma {:induction false} RunEscapeAgrees(t: Terminal, r1: nat -> nat, r2: nat -> nat,
                                           tbuf: seq<byte>, unread: seq<byte>)
    requires Agree(r1, r2, |unread|)
    ensures RunEscape(t, r1, tbuf, unread) == RunEscape(t, r2, tbuf, unread)
    decreases |tbuf| + |unread|
  {
    var (b, u) := Refill(r1, tbuf, unread);
    assert |b| + |u| == |b + u| == |tbuf + unread|;
    assert Refill(r2, tbuf, unread) == (b, u);
    if b != [] {
      RunAgrees(t, r1, r2, t.endsLine(b[0]), b[1..], u);
      RunAgrees(t, r1, r2, t.endsLine(b[0]), b[1..], Ask(u).1);
    }
  }

  /** The read made when u bytes are left delivers n; the others are as they were. */
  function With(cuts: nat -> nat, u: nat, n: nat): nat -> nat {
    v => if v == u then n else cuts(v)
  }

  /** Reading the first byte of s by itself. */
  lemma RunSingle(t: Terminal, cuts: nat -> nat, bol: bool, s: seq<byte>)
    requires s != []
    ensures Run(t, With(cuts, |s|, 1), bol, [], s) ==
            if bol && s[0] == t.cmdchar then RunEscape(t, cuts, [], s[1..])
            else [Sent(s[0])] + Run(t, cuts, t.endsLine(s[0]), [], s[1..])
  {
    var cuts' := With(cuts, |s|, 1);
    assert Refill(cuts', [], s) == (s[..1], s[1..]) && s[..1][1..] == [];
    RunAgrees(t, cuts', cuts, t.endsLine(s[0]), [], s[1..]);
    RunEscapeAgrees(t, cuts', cuts, [], s[1..]);
  }

  /** Reading the character after an escape together with the k bytes that follow it. */
  lemma RunEscapeSingle(t: Terminal, cuts: nat -> nat, s: seq<byte>, k: nat)
    requires k < |s| && k < TBUF
    ensures var c, b, u := s[0], s[1..k + 1], s[k + 1..];
            RunEscape(t, With(cuts, |s|, k + 1), [], s) ==
            if t.quits(c) && !t.confirm then []
            else if t.quits(c) then
              var (answer, u') := Ask(u);
              [Answered(answer)] + if Yes(answer) then [] else Reply(t, c) + Run(t, cuts, t.endsLine(c), b, u')
            else Reply(t, c) + Run(t, cuts, t.endsLine(c), b, u)
  {
    var cuts' := With(cuts, |s|, k + 1);
    var c, b, u := s[0], s[1..k + 1], s[k + 1..];
    assert Refill(cuts', [], s) == (s[..k + 1], u) && s[..k + 1][1..] == b;
    RunAgrees(t, cuts', cuts, t.endsLine(c), b, u);
    RunAgrees(t, cuts', cuts, t.endsLine(c), b, Ask(u).1);
  }

  /** Reads of one byte each. */
  const ONE_BY_ONE: nat -> nat := u => 1

  lemma {:induction false} RunOneByOne(t: Terminal, bol: bool, s: seq<byte>)
    ensures Run(t, ONE_BY_ONE, bol, [], s) == Sends(t, bol, s)
    decreases |s|
  {
    if s != [] {
      RunAgrees(t, ONE_BY_ONE, With(ONE_BY_ONE, |s|, 1), bol, [], s);
      RunSingle(t, ONE_BY_ONE, bol, s);
      RunOneByOne(t, t.endsLine(s[0]), s[1..]);
      RunEscapeOneByOne(t, s[1..]);
    }
  }

  lemma {:induction false} RunEscapeOneByOne(t: Terminal, s: seq<byte>)
    ensures RunEscape(t, ONE_BY_ONE, [], s) == SendsEscape(t, s)
    decreases |s|
  {
    if s != [] {
      RunEscapeAgrees(t, ONE_BY_ONE, With(ONE_BY_ONE, |s|, 1), [], s);
      RunEscapeSingle(t, ONE_BY_ONE, s, 0);
      assert s[1..1] == [];
      RunOneByOne(t, t.endsLine(s[0]), s[1..]);
      RunOneByOne(t, t.endsLine(s[0]), Ask(s[1..]).1);
    }
  }

  /** An input that is not settled has reads that lead to something else than reading byte by byte. */
  lemma {:induction false} Unsettled(t: Terminal, bol: bool, s: seq<byte>) returns (cuts: nat -> nat)
    requires !Settled(t, bol, s)
    ensures Run(t, cuts, bol, [], s) != Sends(t, bol, s)
    decreases |s|
  {
    if bol && s[0] == t.cmdchar {
      cuts := UnsettledEscape(t, s[1..]);
    } else {
      cuts := Unsettled(t, t.endsLine(s[0]), s[1..]);
    }
    RunSingle(t, cuts, bol, s);
    Cancel([Sent(s[0])], Run(t, cuts, t.endsLine(s[0]), [], s[1..]), Sends(t, t.endsLine(s[0]), s[1..]));
    cuts := With(cuts, |s|, 1);
  }

  lemma Cancel<T>(a: seq<T>, b: seq<T>, c: seq<T>)
    ensures a + b == a + c ==> b == c
  {
    assert (a + b)[|a|..] == b && (a + c)[|a|..] == c;
  }

  lemma {:induction false} UnsettledEscape(t: Terminal, s: seq<byte>) returns (cuts: nat -> nat)
    requires !SettledEscape(t, s)
    ensures RunEscape(t, cuts, [], s) != SendsEscape(t, s)
    decreases |s|
  {
    var c, rest := s[0], s[1..];
    if !t.quits(c) {
      cuts := Unsettled(t, t.endsLine(c), rest);
      DiffersAfter(t, s, cuts);
      cuts := With(cuts, |s|, 1);
    } else if Uniform(rest) {
      cuts := Unsettled(t, t.endsLine(c), rest[1..]);
      DiffersAfterAnswer(t, s, cuts);
      cuts := With(cuts, |s|, 1);
    } else {
      cuts := DiffersInAnswer(t, s);
    }
  }

  lemma DiffersAfter(t: Terminal, s: seq<byte>, cuts: nat -> nat)
    requires s != [] && !t.quits(s[0])
    requires var bol := t.endsLine(s[0]); Run(t, cuts, bol, [], s[1..]) != Sends(t, bol, s[1..])
    ensures RunEscape(t, With(cuts, |s|, 1), [], s) != SendsEscape(t, s)
  {
    var c, rest := s[0], s[1..];
    RunEscapeSingle(t, cuts, s, 0);
    assert s[1..1] == [];
    Cancel(Reply(t, c), Run(t, cuts, t.endsLine(c), [], rest), Sends(t, t.endsLine(c), rest));
  }

  lemma DiffersAfterAnswer(t: Terminal, s: seq<byte>, cuts: nat -> nat)
    requires |s| > 1 && t.quits(s[0]) && t.confirm && !Yes(Some(s[1]))
    requires var bol := t.endsLine(s[0]); Run(t, cuts, bol, [], s[1..][1..]) != Sends(t, bol, s[1..][1..])
    ensures RunEscape(t, With(cuts, |s|, 1), [], s) != SendsEscape(t, s)
  {
    var c, rest := s[0], s[1..][1..];
    RunEscapeSingle(t, cuts, s, 0);
    assert s[1..1] == [] && Ask(s[1..]) == (Some(s[1]), rest);
    var run, sends := Run(t, cuts, t.endsLine(c), [], rest), Sends(t, t.endsLine(c), rest);
    Cancel(Reply(t, c), run, sends);
    Cancel([Answered(Some(s[1]))], Reply(t, c) + run, Reply(t, c) + sends);
  }

  lemma DiffersInAnswer(t: Terminal, s: seq<byte>) returns (cuts: nat -> nat)
    requires |s| > 1 && t.quits(s[0]) && t.confirm && !Uniform(s[1..])
    ensures RunEscape(t, cuts, [], s) != SendsEscape(t, s)
  {
    var rest := s[1..];
    var k := OtherAnswer(rest);
    RunEscapeSingle(t, ONE_BY_ONE, s, k);
    assert s[k + 1..] == rest[k..];
    cuts := With(ONE_BY_ONE, |s|, k + 1);
    assert RunEscape(t, cuts, [], s)[0] == Answered(Ask(rest[k..]).0);
    assert SendsEscape(t, s)[0] == Answered(Ask(rest).0);
  }

  /** A number of bytes to buffer so that the answer is not the byte that comes next. */
  lemma OtherAnswer(s: seq<byte>) returns (k: nat)
    requires s != [] && !Uniform(s)
    ensures k <= |s| && k < TBUF && Ask(s[k..]).0 != Ask(s).0
  {
    if |s| < TBUF {
      k := |s|;
    } else {
      k :| 0 <= k < TBUF && s[k] != s[0];
    }
  }

  /**
   What `writer` does for input s does not depend on the reads, if and only if s is settled;
   then it is what is done when s is read byte by byte.
   */
  lemma ReadsDoNotMatter(t: Terminal, bol: bool, s: seq<byte>)
    ensures (forall r1, r2 :: Run(t, r1, bol, [], s) == Run(t, r2, bol, [], s)) <==> Settled(t, bol, s)
    ensures Settled(t, bol, s) ==> forall r :: Run(t, r, bol, [], s) == Sends(t, bol, s)
    ensures !t.confirm ==> Settled(t, bol, s)
  {
    if Settled(t, bol, s) {
      forall r ensures Run(t, r, bol, [], s) == Sends(t, bol, s) {
        assert [] + s == s;
        RunSettled(t, r, bol, [], s);
      }
    } else {
      var r := Unsettled(t, bol, s);
      RunOneByOne(t, bol, s);
      assert Run(t, r, bol, [], s) != Run(t, ONE_BY_ONE, bol, [], s);
    }
    if !t.confirm { SettledUnasked(t, bol, s); }
  }

  const TILDE: byte := '~' as int
  const DOT: byte := '.' as int
  const Y: byte := 'y' as int
  const A: byte := 'a' as int
  const B: byte := 'b' as int

  /**
   The user types the escape, a dot and then y, a and b. If the dot comes by itself, y is the
   answer and the session ends; if y and a come with it, b is the answer and is lost.
   */
  lemma AnswerFromBehind(t: Terminal)
    requires t.cmdchar == TILDE && t.confirm && t.quits(DOT) && !t.suspends(DOT) && !t.endsLine(DOT)
    ensures var s := [TILDE, DOT, Y, A, B];
            && Run(t, u => 2, true, [], s) == [Answered(Some(Y))]
            && Run(t, u => 4, true, [], s) ==
               [Answered(Some(B)), Sent(TILDE), Sent(DOT), Sent(Y), Sent(A)]
  {
    var s := [TILDE, DOT, Y, A, B];
    assert s[..2] == [TILDE, DOT] && s[2..] == [Y, A, B] && s[..4] == [TILDE, DOT, Y, A] && s[4..] == [B];
    assert Refill(u => 2, [], s) == ([TILDE, DOT], [Y, A, B]);
    assert Refill(u => 4, [], s) == ([TILDE, DOT, Y, A], [B]);
    var four: nat -> nat := u => 4;
    calc {
      Run(t, four, true, [], s);
      { assert [TILDE, DOT, Y, A][1..] == [DOT, Y, A]; }
      RunEscape(t, four, [DOT, Y, A], [B]);
      { assert [DOT, Y, A][1..] == [Y, A]; }
      [Answered(Some(B))] + (Reply(t, DOT) + Run(t, four, false, [Y, A], []));
      { assert [Y, A][1..] == [A]; }
      [Answered(Some(B))] + (Reply(t, DOT) + ([Sent(Y)] + Run(t, four, t.endsLine(Y), [A], [])));
      { assert [A][1..] == []; }
      [Answered(Some(B))] + (Reply(t, DOT) + ([Sent(Y)] + ([Sent(A)] + [])));
    }
  }
}
