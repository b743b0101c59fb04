/**
 Database propagation: `xmit_database` of kprop against `doit` and `recv_database` of kpropd
 (kprop.c, kpropd.c), two processes joined by two first-in first-out channels of whole,
 authenticated messages. Each step of a process is one message sent or received, or one
 action on the slave's files; failures are steps of their own, and any interleaving of
 steps is a run.
 */
module Kprop {
  import opened Options

  type Bytes = seq<char>

  const BLOCK: nat := 32768

  /** A KRB_SAFE with a size, a KRB_PRIV with a block of the database, or a KRB_ERROR. */
  datatype Message = Size(size: int) | Block(bytes: Bytes) | Failure

  datatype SenderState = SendSize | SendBlocks | AwaitReply | Succeeded | Failed

  datatype Sender = Sender(state: SenderState, unread: Bytes, sent: nat)

  datatype ReceiverState = ReadSize | ReadBlocks | Rename | Load | Confirm | Exited

  /**
   `temp` is the temporary file, `file` the database dump after the rename, `loaded` what
   kdb5_util was given to load.
   */
  datatype Receiver = Receiver(
    state: ReceiverState, expected: int, received: nat, temp: Bytes,
    file: Option<Bytes>, loaded: Option<Bytes>, writeFailed: bool)

  /** `announced` is the size of the dump when it was opened; the dump itself may since have changed. */
  datatype World = World(
    dump: Bytes, announced: int, sender: Sender, receiver: Receiver,
    forward: seq<Message>, backward: seq<Message>)

  datatype Step =
    | AnnounceSize
    | TransmitBlock(n: nat)
    | EndOfFile
    | ReadReply
    | SenderFails(reported: bool)
    | AcceptSize
    | AcceptBlock(written: int)
    | EndOfBlocks
    | RenameTemp
    | LoadDump
    | SendConfirmation
    | ReceiverFails(reported: bool)

  function Start(dump: Bytes, announced: int): World {
    World(dump, announced, Sender(SendSize, dump, 0),
          Receiver(ReadSize, 0, 0, [], None, None, false), [], [])
  }

  // ----- kprop -----

  predicate Sending(p: Sender) {
    p.state == SendSize || p.state == SendBlocks
  }

  function SenderStep(w: World, a: Step): Option<World> {
    var p := w.sender;
    match a
    case AnnounceSize =>
      if p.state != SendSize then None
      else Some(w.(sender := p.(state := SendBlocks), forward := w.forward + [Size(w.announced)]))
    case TransmitBlock(n) =>
      if p.state != SendBlocks || !(1 <= n <= BLOCK && n <= |p.unread|) then None
      else Some(w.(sender := p.(unread := p.unread[n..], sent := p.sent + n),
                   forward := w.forward + [Block(p.unread[..n])]))
    case EndOfFile =>
      if p.state != SendBlocks || p.unread != [] then None
      else if p.sent != w.announced then
        Some(w.(sender := p.(state := Failed), forward := w.forward + [Failure]))
      else Some(w.(sender := p.(state := AwaitReply)))
    case ReadReply =>
      if p.state != AwaitReply || w.backward == [] then None
      else
        var good := w.backward[0] == Size(w.announced);
        Some(w.(sender := p.(state := if good then Succeeded else Failed), backward := w.backward[1..]))
    case SenderFails(reported) =>
      if !(Sending(p) || p.state == AwaitReply) then None
      else Some(w.(sender := p.(state := Failed),
                   forward := w.forward + (if reported then [Failure] else [])))
    case _ => None
  }

  // ----- kpropd -----

  /** The receiver exits, having sent an error or not. */
  function Abort(w: World, reported: bool): World {
    w.(receiver := w.receiver.(state := Exited), backward := w.backward + (if reported then [Failure] else []))
  }

  /** A block is written, in part or not at all if the write fails; the loop goes on in any case. */
  function WriteBlock(w: World, bytes: Bytes, written: int): World
    requires written <= |bytes|
  {
    var d := w.receiver;
    var short := written < |bytes|;
    w.(receiver := d.(temp := d.temp + (if written > 0 then bytes[..written] else []),
                      received := d.received + |bytes|,
                      writeFailed := d.writeFailed || short),
       backward := w.backward + (if short then [Failure] else []))
  }

  function ReceiverStep(w: World, a: Step): Option<World> {
    var d := w.receiver;
    match a
    case AcceptSize =>
      if d.state != ReadSize || w.forward == [] then None
      else
        var rest := w.(forward := w.forward[1..]);
        (match w.forward[0]
         case Size(n) => Some(rest.(receiver := d.(state := ReadBlocks, expected := n)))
         case Failure => Some(Abort(rest, false))
         case Block(_) => Some(Abort(rest, true)))
    case AcceptBlock(written) =>
      if d.state != ReadBlocks || d.received >= d.expected || w.forward == [] then None
      else
        var rest := w.(forward := w.forward[1..]);
        (match w.forward[0]
         case Block(bytes) => if written > |bytes| then None else Some(WriteBlock(rest, bytes, written))
         case Failure => Some(Abort(rest, false))
         case Size(_) => Some(Abort(rest, true)))
    case EndOfBlocks =>
      if d.state != ReadBlocks || d.received < d.expected then None
      else Some(w.(receiver := d.(state := Rename),
                   backward := w.backward + (if d.received > d.expected then [Failure] else [])))
    case RenameTemp =>
      if d.state != Rename then None
      else Some(w.(receiver := d.(state := Load, file := Some(d.temp))))
    case LoadDump =>
      if d.state != Load then None
      else Some(w.(receiver := d.(state := Confirm, loaded := d.file)))
    case SendConfirmation =>
      if d.state != Confirm then None
      else Some(w.(receiver := d.(state := Exited), backward := w.backward + [Size(d.expected)]))
    case ReceiverFails(reported) =>
      if d.state == Exited then None else Some(Abort(w, reported))
    case _ => None
  }

  function Next(w: World, a: Step): Option<World> {
    if SenderStep(w, a).Some? then SenderStep(w, a) else ReceiverStep(w, a)
  }

  /** The world after a sequence of steps, each possible when it is taken. */
  function Run(w: World, steps: seq<Step>): Option<World>
    decreases |steps|
  {
    if steps == [] then Some(w)
    else
      var r := Next(w, steps[0]);
      if r.None? then None else Run(r.value, steps[1..])
  }

  // ----- What every run keeps -----

  /** The bytes on their way in a channel. */
  function Payload(ms: seq<Message>): Bytes {
    if ms == [] then [] else Carried(ms[0]) + Payload(ms[1..])
  }

  predicate Written(d: Receiver) {
    d.state == Rename || d.state == Load || d.state == Confirm || d.loaded.Some?
  }

  /** Bytes written, bytes in flight and bytes unread make up the dump, until a write fails. */
  ghost predicate Conserved(w: World) {
    var d := w.receiver;
    && d.received <= |w.dump|
    && w.dump[..d.received] + Payload(w.forward) + w.sender.unread == w.dump
    && (if d.writeFailed then |d.temp| < d.received else d.temp == w.dump[..d.received])
  }

  /** Whatever went wrong on the slave is the first thing kprop will hear of. */
  ghost predicate Reported(w: World) {
    var d := w.receiver;
    && (d.writeFailed || (Written(d) && d.received > d.expected) ==> w.backward != [] && w.backward[0] == Failure)
    && (forall i :: 0 <= i < |w.backward| ==>
            w.backward[i] == Failure || (w.backward[i] == Size(d.expected) && Finished(w)))
  }

  /** kpropd has gone through rename and load. */
  predicate Finished(w: World) {
    var d := w.receiver;
    d.state == Exited && d.loaded.Some?
  }

  /** The size comes first, and no block is empty. */
  ghost predicate Framed(w: World) {
    && (forall m :: m in w.forward && m.Block? ==> m.bytes != [])
    && (w.receiver.state == ReadSize ==>
          if w.forward == [] then w.sender.state == SendSize || w.sender.state == Failed else !w.forward[0].Block?)
  }

  /** Where each process is, and what it knows. */
  ghost predicate Accounted(w: World) {
    var p, d := w.sender, w.receiver;
    && p.sent == |w.dump| - |p.unread|
    && (p.state == AwaitReply || p.state == Succeeded ==> p.unread == [] && p.sent == w.announced)
    && (Written(d) ==> d.received >= d.expected)
    && (d.state == Load || d.state == Confirm ==> d.file == Some(d.temp))
    && (d.state == Confirm ==> d.loaded.Some?)
    && (d.loaded.Some? ==> d.file == d.loaded == Some(d.temp))
    && (d.loaded.Some? ==> d.state == Confirm || d.state == Exited)
    && (Sending(p) || p.state == AwaitReply ==> Reported(w))
    && (p.state == Succeeded ==> Finished(w) && !d.writeFailed && d.received == d.expected == w.announced)
  }

  ghost predicate Inv(w: World) {
    Conserved(w) && Framed(w) && Accounted(w)
  }

  function Carried(m: Message): Bytes {
    if m.Block? then m.bytes else []
  }

  lemma {:induction false} PayloadAppend(ms: seq<Message>, m: Message)
    ensures Payload(ms + [m]) == Payload(ms) + Carried(m)
  {
    if ms == [] {
      assert ms + [m] == [m];
      assert Payload([m]) == Carried(m) + Payload([m][1..]);
    } else {
      assert (ms + [m])[1..] == ms[1..] + [m];
      PayloadAppend(ms[1..], m);
      assert Payload(ms + [m]) == Carried(ms[0]) + (Payload(ms[1..]) + Carried(m));
    }
  }

  lemma ConservedSend(w: World, m: Message, unread: Bytes, p: Sender)
    requires Conserved(w) && w.sender.unread == Carried(m) + unread && p.unread == unread
    ensures Conserved(w.(forward := w.forward + [m], sender := p))
  {
    PayloadAppend(w.forward, m);
    RegroupMiddle(w.dump[..w.receiver.received], Payload(w.forward), Carried(m), unread);
  }

  lemma ConservedNote(w: World, m: Message, p: Sender)
    requires Conserved(w) && !m.Block? && p.unread == w.sender.unread
    ensures Conserved(w.(forward := w.forward + [m], sender := p))
  {
    assert w.sender.unread == [] + p.unread;
    ConservedSend(w, m, p.unread, p);
  }

  lemma RegroupMiddle(a: Bytes, b: Bytes, c: Bytes, d: Bytes)
    ensures a + (b + c) + d == a + b + (c + d)
  {
  }

  lemma SenderSends(w: World, a: Step)
    requires Conserved(w) && SenderStep(w, a).Some?
    ensures Conserved(SenderStep(w, a).value)
  {
    var p := w.sender;
    var p' := SenderStep(w, a).value.sender;
    match a
    case AnnounceSize => ConservedNote(w, Size(w.announced), p');
    case TransmitBlock(n) =>
      assert p.unread == p.unread[..n] + p.unread[n..];
      ConservedSend(w, Block(p.unread[..n]), p.unread[n..], p');
    case EndOfFile => ConservedNote(w, Failure, p');
    case SenderFails(reported) =>
      if reported { ConservedNote(w, Failure, p'); } else { assert w.forward + [] == w.forward; }
    case _ =>
  }

  lemma SenderAccounts(w: World, a: Step)
    requires Framed(w) && Accounted(w) && SenderStep(w, a).Some?
    ensures Framed(SenderStep(w, a).value) && Accounted(SenderStep(w, a).value)
  {
  }

  /** A block goes from the channel to the file, or what can be written of it. */
  lemma BlockConserved(w: World, written: int)
    requires Conserved(w) && w.forward != [] && w.forward[0].Block? && w.forward[0].bytes != []
    requires written <= |w.forward[0].bytes|
    ensures Conserved(WriteBlock(w.(forward := w.forward[1..]), w.forward[0].bytes, written))
  {
    var d, bytes := w.receiver, w.forward[0].bytes;
    var before, rest := w.dump[..d.received], Payload(w.forward[1..]);
    RegroupMiddle(before, [], bytes, rest);
    assert w.dump == before + (bytes + rest) + w.sender.unread;
    RegroupMiddle(before, bytes, rest, w.sender.unread);
    assert w.dump[..d.received + |bytes|] == before + bytes;
    if written == |bytes| { assert bytes[..written] == bytes; }
  }

  /** Taking a message without payload off the channel loses nothing. */
  lemma PopConserved(w: World)
    requires Conserved(w) && w.forward != [] && !w.forward[0].Block?
    ensures Conserved(w.(forward := w.forward[1..]))
  {
    assert [] + Payload(w.forward[1..]) == Payload(w.forward[1..]);
  }

  lemma ReceiverTakes(w: World, a: Step)
    requires Conserved(w) && Framed(w) && ReceiverStep(w, a).Some?
    ensures Conserved(ReceiverStep(w, a).value)
  {
    if a.AcceptSize? || a.AcceptBlock? {
      if w.forward[0].Block? { BlockConserved(w, a.written); } else { PopConserved(w); }
    }
  }

  lemma AbortAccounts(w: World, reported: bool, forward: seq<Message>)
    requires Framed(w) && Accounted(w) && w.receiver.state != Exited
    requires forall m :: m in forward ==> m in w.forward
    ensures var w' := Abort(w.(forward := forward), reported); Framed(w') && Accounted(w')
  {
  }

  lemma AcceptAccounts(w: World, a: Step)
    requires Framed(w) && Accounted(w) && ReceiverStep(w, a).Some? && (a.AcceptSize? || a.AcceptBlock?)
    ensures Framed(ReceiverStep(w, a).value) && Accounted(ReceiverStep(w, a).value)
  {
    if (a.AcceptSize? && !w.forward[0].Size?) || (a.AcceptBlock? && !w.forward[0].Block?) {
      AbortAccounts(w, !w.forward[0].Failure?, w.forward[1..]);
    }
  }

  lemma ReceiverAccounts(w: World, a: Step)
    requires Framed(w) && Accounted(w) && ReceiverStep(w, a).Some?
    ensures Framed(ReceiverStep(w, a).value) && Accounted(ReceiverStep(w, a).value)
  {
    if a.AcceptSize? || a.AcceptBlock? {
      AcceptAccounts(w, a);
    } else if a.ReceiverFails? {
      AbortAccounts(w, a.reported, w.forward);
    }
  }

  lemma StepKeeps(w: World, a: Step)
    requires Inv(w) && Next(w, a).Some?
    ensures var w' := Next(w, a).value; Inv(w') && w'.dump == w.dump && w'.announced == w.announced
  {
    if SenderStep(w, a).Some? {
      SenderSends(w, a);
      SenderAccounts(w, a);
    } else {
      ReceiverTakes(w, a);
      ReceiverAccounts(w, a);
    }
  }

  lemma {:induction false} RunKeeps(w: World, steps: seq<Step>)
    requires Inv(w) && Run(w, steps).Some?
    ensures var z := Run(w, steps).value; Inv(z) && z.dump == w.dump && z.announced == w.announced
    decreases |steps|
  {
    if steps != [] {
      StepKeeps(w, steps[0]);
      RunKeeps(Next(w, steps[0]).value, steps[1..]);
    }
  }

  /** In every run, the bytes written, in flight and unread are the dump, in order, while no write has failed. */
  lemma BytesConserved(dump: Bytes, announced: int, steps: seq<Step>)
    requires Run(Start(dump, announced), steps).Some?
    ensures var w := Run(Start(dump, announced), steps).value;
            !w.receiver.writeFailed ==> w.receiver.temp + Payload(w.forward) + w.sender.unread == dump
  {
    RunKeeps(Start(dump, announced), steps);
  }

  /** kprop reports success only if kpropd wrote exactly the dump, renamed the file and finished loading it. */
  lemma SuccessMeansLoaded(dump: Bytes, announced: int, steps: seq<Step>)
    requires Run(Start(dump, announced), steps).Some?
    ensures var w := Run(Start(dump, announced), steps).value;
            w.sender.state == Succeeded ==>
              && w.receiver.temp == dump && w.receiver.file == Some(dump) && w.receiver.loaded == Some(dump)
              && announced == |dump|
  {
    RunKeeps(Start(dump, announced), steps);
    var w := Run(Start(dump, announced), steps).value;
    if w.sender.state == Succeeded {
      assert w.dump[..w.receiver.received] == w.dump;
    }
  }

  /**
   A failed write does not keep kpropd from renaming and loading: what it loads is what it was
   sent, a beginning of the dump no shorter than announced, if and only if no write failed.
   */
  lemma LoadedIff(dump: Bytes, announced: int, steps: seq<Step>)
    requires Run(Start(dump, announced), steps).Some?
    requires Run(Start(dump, announced), steps).value.receiver.loaded.Some?
    ensures var d := Run(Start(dump, announced), steps).value.receiver;
            && d.expected <= d.received <= |dump|
            && (d.loaded.value == dump[..d.received] <==> !d.writeFailed)
  {
    RunKeeps(Start(dump, announced), steps);
  }

  /** What kpropd goes by is the size announced, and it stops at the block that reaches it. */
  ghost predicate Sized(w: World) {
    var d := w.receiver;
    && (forall m :: m in w.forward && m.Size? ==> m.size == w.announced)
    && (forall m :: m in w.forward && m.Block? ==> |m.bytes| <= 32768)
    && (d.state in {ReadBlocks, Rename, Load, Confirm} || d.loaded.Some? ==> d.expected == w.announced)
    && (d.received == 0 || (d.expected == w.announced && d.received < w.announced + 32768))
  }

  lemma SizedStep(w: World, a: Step)
    requires Sized(w) && Inv(w) && Next(w, a).Some?
    ensures Sized(Next(w, a).value)
  {
  }

  lemma {:induction false} SizedRun(w: World, steps: seq<Step>)
    requires Inv(w) && Sized(w) && Run(w, steps).Some?
    ensures Sized(Run(w, steps).value)
    decreases |steps|
  {
    if steps != [] {
      StepKeeps(w, steps[0]);
      SizedStep(w, steps[0]);
      SizedRun(Next(w, steps[0]).value, steps[1..]);
    }
  }

  /**
   In every run kpropd takes less than a block more than was announced, and loads nothing before it
   has taken as much as was announced: never, if the dump is shorter than that.
   */
  lemma LoadsEnough(dump: Bytes, announced: int, steps: seq<Step>)
    requires Run(Start(dump, announced), steps).Some?
    ensures var d := Run(Start(dump, announced), steps).value.receiver;
            && (d.received == 0 || d.received < announced + 32768)
            && (d.loaded.Some? ==> announced <= d.received)
            && (announced > |dump| ==> d.loaded.None?)
  {
    RunKeeps(Start(dump, announced), steps);
    SizedRun(Start(dump, announced), steps);
  }

  /** Which blocks can be sent; and either process can fail before it is done, with a report or without. */
  lemma OpenSteps(w: World, n: nat, reported: bool)
    ensures SenderStep(w, TransmitBlock(n)).Some? <==>
            w.sender.state == SendBlocks && 1 <= n <= 32768 && n <= |w.sender.unread|
    ensures w.sender.state in {Succeeded, Failed} <==> SenderStep(w, SenderFails(reported)).None?
    ensures var r := SenderStep(w, SenderFails(reported));
            r.Some? ==> && r.value.sender.state == Failed && r.value.receiver == w.receiver
                        && r.value.forward == w.forward + (if reported then [Failure] else [])
    ensures w.receiver.state == Exited <==> ReceiverStep(w, ReceiverFails(reported)).None?
    ensures var r := ReceiverStep(w, ReceiverFails(reported));
            r.Some? ==> && r.value.receiver == w.receiver.(state := Exited) && r.value.sender == w.sender
                        && r.value.backward == w.backward + (if reported then [Failure] else [])
  {
  }

  lemma RunStep(w: World, a: Step, rest: seq<Step>)
    requires Next(w, a).Some?
    ensures Run(w, [a] + rest) == Run(Next(w, a).value, rest)
  {
    assert ([a] + rest)[1..] == rest;
  }

  /** The only block has come in and could not be written. */
  function AfterFailedWrite(b: char): World {
    World([b], 1, Sender(SendBlocks, [], 1), Receiver(ReadBlocks, 1, 1, [], None, None, true), [], [Failure])
  }

  lemma FailsToWrite(b: char, rest: seq<Step>)
    ensures Run(Start([b], 1), [AnnounceSize] + ([TransmitBlock(1)] + ([AcceptSize] + ([AcceptBlock(-1)] + rest)))) ==
            Run(AfterFailedWrite(b), rest)
  {
    var w1 := Start([b], 1).(sender := Sender(SendBlocks, [b], 0), forward := [Size(1)]);
    var w2 := w1.(sender := Sender(SendBlocks, [], 1), forward := [Size(1), Block([b])]);
    var w3 := w2.(receiver := Receiver(ReadBlocks, 1, 0, [], None, None, false), forward := [Block([b])]);
    assert Next(Start([b], 1), AnnounceSize).value.forward == w1.forward;
    assert Next(w1, TransmitBlock(1)) == Some(w2) by {
      assert [b][..1] == [b] && [b][1..] == [] && [Size(1)] + [Block([b])] == [Size(1), Block([b])];
    }
    assert Next(w2, AcceptSize).value.forward == w3.forward;
    assert Next(w3, AcceptBlock(-1)).value.receiver.temp == [];
    assert Next(w3, AcceptBlock(-1)).value.backward == [Failure];
    assert Next(w3, AcceptBlock(-1)) == Some(AfterFailedWrite(b));
    RunStep(w3, AcceptBlock(-1), rest);
    RunStep(w2, AcceptSize, [AcceptBlock(-1)] + rest);
    RunStep(w1, TransmitBlock(1), [AcceptSize] + ([AcceptBlock(-1)] + rest));
    RunStep(Start([b], 1), AnnounceSize, [TransmitBlock(1)] + ([AcceptSize] + ([AcceptBlock(-1)] + rest)));
  }

  lemma LoadsNothing(b: char)
    ensures var r := Run(AfterFailedWrite(b), [EndOfBlocks] + ([RenameTemp] + ([LoadDump] + [])));
            r.Some? && r.value.receiver.loaded == Some([]) && r.value.sender.state != Succeeded
  {
    var w5 := Next(AfterFailedWrite(b), EndOfBlocks).value;
    var w6 := Next(w5, RenameTemp).value;
    RunStep(w6, LoadDump, []);
    RunStep(w5, RenameTemp, [LoadDump] + []);
    RunStep(AfterFailedWrite(b), EndOfBlocks, [RenameTemp] + ([LoadDump] + []));
  }

  /** Such a run exists: the only block cannot be written, and yet an empty file is loaded. */
  lemma LoadsAfterFailedWrite(b: char)
    ensures var r := Run(Start([b], 1), [AnnounceSize, TransmitBlock(1), AcceptSize, AcceptBlock(-1),
                                         EndOfBlocks, RenameTemp, LoadDump]);
            r.Some? && r.value.receiver.loaded == Some([]) && r.value.sender.state != Succeeded
  {
    var last := [EndOfBlocks] + ([RenameTemp] + ([LoadDump] + []));
    FailsToWrite(b, last);
    LoadsNothing(b);
    assert [AnnounceSize, TransmitBlock(1), AcceptSize, AcceptBlock(-1), EndOfBlocks, RenameTemp, LoadDump] ==
           [AnnounceSize] + ([TransmitBlock(1)] + ([AcceptSize] + ([AcceptBlock(-1)] + last)));
  }

  // ----- Runs without failures -----

  /** A step that is not a failure, from a given state: a block is written whole. */
  predicate Healthy(w: World, a: Step) {
    !a.SenderFails? && !a.ReceiverFails? &&
    (a.AcceptBlock? && w.forward != [] && w.forward[0].Block? ==> a.written == |w.forward[0].bytes|)
  }

  predicate HealthyRun(w: World, steps: seq<Step>)
    decreases |steps|
  {
    steps == [] ||
    (Healthy(w, steps[0]) && Next(w, steps[0]).Some? && HealthyRun(Next(w, steps[0]).value, steps[1..]))
  }

  /** Nothing has gone wrong so far. */
  ghost predicate Smooth(w: World) {
    var p, d := w.sender, w.receiver;
    && w.announced == |w.dump| && !d.writeFailed && p.state != Failed
    && (d.state == ReadSize ==> d.received == 0)
    && (d.state != ReadSize ==> d.expected == w.announced)
    && (if p.state == SendSize then d.state == ReadSize && w.forward == []
        else if d.state == ReadSize then w.forward != [] && w.forward[0] == Size(w.announced)
          && OnlyBlocks(w.forward[1..])
        else OnlyBlocks(w.forward))
    && (d.state == Exited ==> d.loaded.Some?)
    && (if d.state != Exited then w.backward == []
        else w.backward == (if p.state == Succeeded then [] else [Size(w.announced)]))
    && (p.state == Succeeded ==> d.state == Exited)
  }

  ghost predicate Well(w: World) {
    Inv(w) && Smooth(w)
  }

  predicate OnlyBlocks(ms: seq<Message>) {
    forall m :: m in ms ==> m.Block? && m.bytes != []
  }

  lemma SenderSmooth(w: World, a: Step)
    requires Smooth(w) && Accounted(w) && Healthy(w, a) && SenderStep(w, a).Some?
    ensures Smooth(SenderStep(w, a).value)
  {
  }

  lemma ReceiverSmooth(w: World, a: Step)
    requires Smooth(w) && Accounted(w) && w.receiver.received <= |w.dump|
    requires Healthy(w, a) && ReceiverStep(w, a).Some?
    ensures Smooth(ReceiverStep(w, a).value)
  {
  }

  lemma HealthyKeeps(w: World, a: Step)
    requires Well(w) && Healthy(w, a) && Next(w, a).Some?
    ensures Well(Next(w, a).value)
  {
    StepKeeps(w, a);
    if SenderStep(w, a).Some? { SenderSmooth(w, a); } else { ReceiverSmooth(w, a); }
  }

  function Rank(s: ReceiverState): nat {
    match s case ReadSize => 5 case ReadBlocks => 4 case Rename => 3 case Load => 2 case Confirm => 1 case Exited => 0
  }

  function SenderRank(s: SenderState): nat {
    match s case SendSize => 5 case SendBlocks => 3 case AwaitReply => 2 case Succeeded => 0 case Failed => 0
  }

  /** The steps left, at most: two for each byte and one for each change of state. */
  function Left(w: World): int {
    2 * |w.sender.unread| + SenderRank(w.sender.state) + Rank(w.receiver.state) + |w.forward|
  }

  lemma HealthyProgress(w: World, a: Step)
    requires Well(w) && Healthy(w, a) && Next(w, a).Some?
    ensures Left(Next(w, a).value) < Left(w)
  {
  }

  /** While kprop has not succeeded, some step that is not a failure can be taken. */
  lemma HealthyEnabled(w: World) returns (a: Step)
    requires Well(w) && w.sender.state != Succeeded
    ensures Healthy(w, a) && Next(w, a).Some?
  {
    var p, d := w.sender, w.receiver;
    if p.state == SendSize {
      a := AnnounceSize;
    } else if p.state == SendBlocks {
      a := if p.unread == [] then EndOfFile else TransmitBlock(1);
    } else {
      match d.state
      case ReadSize => a := AcceptSize;
      case ReadBlocks =>
        if d.received >= d.expected {
          a := EndOfBlocks;
        } else {
          assert w.forward != [];
          a := AcceptBlock(|w.forward[0].bytes|);
        }
      case Rename => a := RenameTemp;
      case Load => a := LoadDump;
      case Confirm => a := SendConfirmation;
      case Exited => a := ReadReply;
    }
  }

  lemma {:induction false} HealthyRunKeeps(w: World, steps: seq<Step>)
    requires Well(w) && HealthyRun(w, steps)
    ensures Run(w, steps).Some? && Well(Run(w, steps).value) && |steps| + Left(Run(w, steps).value) <= Left(w)
    decreases |steps|
  {
    if steps != [] {
      HealthyKeeps(w, steps[0]);
      HealthyProgress(w, steps[0]);
      HealthyRunKeeps(Next(w, steps[0]).value, steps[1..]);
    }
  }

  /**
   Without failures every run of an unchanged dump comes to an end, after at most two steps
   for each byte and ten more, and it can only end in success.
   */
  lemma HealthyRunSucceeds(dump: Bytes, steps: seq<Step>)
    requires HealthyRun(Start(dump, |dump|), steps)
    ensures |steps| <= 2 * |dump| + 10
    ensures Run(Start(dump, |dump|), steps).Some?
    ensures var w := Run(Start(dump, |dump|), steps).value;
            || (w.sender.state == Succeeded && w.receiver.loaded == Some(dump))
            || exists a :: Healthy(w, a) && Next(w, a).Some?
  {
    HealthyRunKeeps(Start(dump, |dump|), steps);
    var w := Run(Start(dump, |dump|), steps).value;
    if w.sender.state == Succeeded {
      SuccessMeansLoaded(dump, |dump|, steps);
    } else {
      var a := HealthyEnabled(w);
    }
  }
}
