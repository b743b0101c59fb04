/**
 Every run of the two rcp processes, whatever the interleaving, ends with both in step and the
 file system as `Transfer` says, unless a failure goes unreported that the peer waits to hear of:
 a local sink refuses a node or cannot write it, or a local source cannot read a file.
 */
module RcpRuns {
  import opened Options
  import opened RcpWire
  import opened Rcp

  // ----- What the work that is left will do -----

  function Top(frames: seq<Frame>): Frame
    requires frames != []
  {
    frames[|frames| - 1]
  }

  /** The frames after the innermost activation has returned. */
  function Popped(frames: seq<Frame>): seq<Frame>
    requires |frames| >= 2
  {
    frames[..|frames| - 2] + [frames[|frames| - 2].(times := None)]
  }

  function Closed(fs: FileSystem, frames: seq<Frame>): FileSystem
    requires |frames| >= 2
  {
    var times := frames[|frames| - 2].times;
    if times.None? then fs else Stamped(fs, Top(frames).path, times.value.0, times.value.1)
  }

  /** The final file system, if the tasks are carried out from here. */
  function Finish(s: Setup, fs: FileSystem, frames: seq<Frame>, todo: seq<Task>): Option<FileSystem>
    decreases |todo|
  {
    if todo == [] then Some(fs)
    else match todo[0]
      case Send(d, n) =>
        var r := Transfer(s, fs, d, n);
        if r.None? then None else Finish(s, r.value, frames, todo[1..])
      case EndDir =>
        if |frames| < 2 then None else Finish(s, Closed(fs, frames), Popped(frames), todo[1..])
  }

  /** The tasks fit the activations of the sink: each node goes into the directory it is in. */
  predicate Fits(frames: seq<Frame>, todo: seq<Task>)
    decreases |todo|
  {
    frames != [] &&
    if todo == [] then |frames| == 1
    else match todo[0]
      case Send(d, n) => d == Top(frames).path && Legal(n) && Fits(frames, todo[1..])
      case EndDir => |frames| >= 2 && frames[|frames| - 2].times.Some? && Fits(Popped(frames), todo[1..])
  }

  function WithTimes(frames: seq<Frame>, times: Option<(nat, nat)>): seq<Frame>
    requires frames != []
  {
    frames[|frames| - 1 := Top(frames).(times := times)]
  }

  /** The times pending for the innermost activation are of no account: a record will set them. */
  lemma {:induction false} TimesIgnored(s: Setup, fs: FileSystem, frames: seq<Frame>,
                                        todo: seq<Task>, times: Option<(nat, nat)>)
    requires Fits(frames, todo)
    ensures Fits(WithTimes(frames, times), todo)
    ensures Finish(s, fs, WithTimes(frames, times), todo) == Finish(s, fs, frames, todo)
    decreases |todo|
  {
    if todo != [] {
      match todo[0]
      case Send(d, n) =>
        var r := Transfer(s, fs, d, n);
        TimesIgnored(s, fs, frames, todo[1..], times);
        if r.Some? { TimesIgnored(s, r.value, frames, todo[1..], times); }
      case EndDir =>
        assert Popped(WithTimes(frames, times)) == Popped(frames);
    }
  }

  /** Sending the children of a directory and ending it is what `Transfer` says of the directory. */
  lemma {:induction false} KidsFinish(s: Setup, fs: FileSystem, frames: seq<Frame>,
                                      p: Path, ns: seq<Node>, todo: seq<Task>)
    requires |frames| >= 2 && Top(frames).path == p && frames[|frames| - 2].times.Some?
    requires Fits(Popped(frames), todo) && forall n :: n in ns ==> Legal(n)
    ensures var tasks := Kids(p, ns) + [EndDir] + todo;
            && Fits(frames, tasks)
            && Finish(s, fs, frames, tasks) ==
               (var r := TransferAll(s, fs, p, ns);
                if r.None? then None else Finish(s, Closed(r.value, frames), Popped(frames), todo))
    decreases |ns|
  {
    var tasks := Kids(p, ns) + [EndDir] + todo;
    if ns == [] {
      assert tasks == [EndDir] + todo && tasks[1..] == todo;
    } else {
      assert tasks[1..] == Kids(p, ns[1..]) + [EndDir] + todo;
      var r := Transfer(s, fs, p, ns[0]);
      KidsFinish(s, fs, frames, p, ns[1..], todo);
      if r.Some? { KidsFinish(s, r.value, frames, p, ns[1..], todo); }
    }
  }

  lemma SendFinish(s: Setup, y: System, d: Path, n: Node)
    ensures Finish(s, y.fs, y.frames, [Send(d, n)] + y.todo) ==
            var r := Transfer(s, y.fs, d, n);
            if r.None? then None else Finish(s, r.value, y.frames, y.todo)
  {
    assert ([Send(d, n)] + y.todo)[1..] == y.todo;
  }

  // ----- The invariant -----

  /** A number of error reports, one after the other. */
  predicate Errors(f: string) {
    f == "" || (ERROR <= f && Errors(f[|ERROR|..]))
  }

  /** Between two pieces of work; `den` is the final file system to reach, or None. */
  ghost predicate AtReady(s: Setup, y: System, den: Option<FileSystem>) {
    && y.sink == Commands && y.backward == "" && Errors(y.forward)
    && Fits(y.frames, y.todo) && Finish(s, y.fs, y.frames, y.todo) == den
  }

  /** Node n is under way into the innermost directory, and not refused by the source. */
  ghost predicate Sending(s: Setup, y: System, d: Path, n: Node, den: Option<FileSystem>) {
    && Fits(y.frames, y.todo) && d == Top(y.frames).path && Legal(n)
    && !s.sourceFault(d + [n.name]).Refused?
    && Finish(s, y.fs, y.frames, [Send(d, n)] + y.todo) == den
  }

  predicate Timed(y: System, n: Node) {
    y.frames != [] && Top(y.frames).times == Some((n.mtime, n.atime))
  }

  ghost predicate AtTimes(s: Setup, y: System, d: Path, n: Node, den: Option<FileSystem>) {
    && y.sink == Commands && Sending(s, y, d, n, den)
    && (|| (y.backward == "" && exists e :: Errors(e) && y.forward == e + TimesLine(n.mtime, n.atime) + "\n")
        || (y.backward == ACK && y.forward == "" && Timed(y, n)))
  }

  function MakeLine(n: Node): string {
    if n.File? then FileLine(n.mode, |n.data|, n.name) else DirLine(n.mode, n.name)
  }

  predicate ReceivingFile(y: System, d: Path, n: Node) {
    n.File? && y.sink == Receiving(d + [n.name], n.mode % MODE_MASK, |n.data|)
  }

  /** The sink has made the directory and entered it. */
  ghost predicate Entered(s: Setup, y: System, d: Path, n: Node, den: Option<FileSystem>) {
    var p := d + [n.name];
    && n.Dir? && y.sink == Commands
    && |y.frames| >= 2 && Top(y.frames).path == p && y.frames[|y.frames| - 2].times == Some((n.mtime, n.atime))
    && Fits(Popped(y.frames), y.todo) && Legal(n)
    && Finish(s, y.fs, y.frames, Kids(p, n.kids) + [EndDir] + y.todo) == den
  }

  /** An answer is on its way to the source, and only the rest of the work is left. */
  ghost predicate Answered(s: Setup, y: System, den: Option<FileSystem>) {
    && y.sink == Commands && y.forward == "" && (y.backward == ACK || y.backward == ERROR)
    && Fits(y.frames, y.todo) && Finish(s, y.fs, y.frames, y.todo) == den
  }

  /** Nothing is on its way and both sides wait for each other. */
  ghost predicate Deadlocked(s: Setup, y: System, den: Option<FileSystem>) {
    && y.source != Ready && y.backward == "" && den.None? && y.frames != []
    && (|| (y.sink == Commands && y.forward == "")
        || (y.sink.Receiving? && |y.forward| <= y.sink.size))
  }

  ghost predicate AtMake(s: Setup, y: System, d: Path, n: Node, den: Option<FileSystem>) {
    || (&& y.sink == Commands && Sending(s, y, d, n, den) && Timed(y, n)
        && y.backward == "" && y.forward == MakeLine(n) + "\n")
    || (&& ReceivingFile(y, d, n) && Sending(s, y, d, n, den) && Timed(y, n)
        && !SinkRefuses(s, y.fs, d + [n.name], false)
        && y.backward == ACK && y.forward == "")
    || (Entered(s, y, d, n, den) && y.backward == ACK && y.forward == "")
    || (Answered(s, y, den) && y.backward == ERROR)
    || Deadlocked(s, y, den)
  }

  ghost predicate AtStored(s: Setup, y: System, d: Path, n: Node, den: Option<FileSystem>) {
    || (&& ReceivingFile(y, d, n) && Sending(s, y, d, n, den) && Timed(y, n)
        && !SinkRefuses(s, y.fs, d + [n.name], false)
        && y.backward == ""
        && y.forward == Sent(s, d + [n.name], n) + (if ReadFails(s, d + [n.name], n) then ERROR else ACK)
        && (ReadFails(s, d + [n.name], n) ==> !s.sinkRemote))
    || Answered(s, y, den)
    || Deadlocked(s, y, den)
  }

  ghost predicate AtDone(s: Setup, y: System, den: Option<FileSystem>) {
    || (&& y.sink == Commands && y.backward == ""
        && (exists e :: Errors(e) && y.forward == e + "E" + "\n")
        && Fits(y.frames, [EndDir] + y.todo) && Finish(s, y.fs, y.frames, [EndDir] + y.todo) == den)
    || Answered(s, y, den)
  }

  ghost predicate Inv(s: Setup, y: System, den: Option<FileSystem>) {
    match y.source
    case Ready => AtReady(s, y, den)
    case AwaitTimes(d, n) => AtTimes(s, y, d, n, den)
    case AwaitMake(d, n) => AtMake(s, y, d, n, den)
    case AwaitStored(d, n) => AtStored(s, y, d, n, den)
    case AwaitDone => AtDone(s, y, den)
  }

  // ----- Steps of the source -----

  lemma {:induction false} ErrorsAppend(f: string)
    requires Errors(f)
    ensures Errors(f + ERROR)
  {
    if f == "" {
      assert f + ERROR == ERROR && ERROR[|ERROR|..] == "";
    } else {
      assert (f + ERROR)[|ERROR|..] == f[|ERROR|..] + ERROR;
      ErrorsAppend(f[|ERROR|..]);
      assert ERROR <= f + ERROR;
    }
  }

  lemma BeginKeeps(s: Setup, y: System, den: Option<FileSystem>)
    requires y.source == Ready && y.todo != [] && AtReady(s, y, den)
    ensures Inv(s, Begin(s, y), den)
  {
    var y' := Begin(s, y);
    var e := y.forward;
    assert y.todo == [y.todo[0]] + y.todo[1..];
    match y.todo[0]
    case EndDir =>
      assert y'.forward == e + "E" + "\n";
    case Send(d, n) =>
      if s.sourceFault(d + [n.name]).Refused? {
        ErrorsAppend(e);
        assert e + "" == e;
      } else {
        assert y'.forward == e + TimesLine(n.mtime, n.atime) + "\n";
      }
  }

  lemma ContinueTimes(s: Setup, y: System, d: Path, n: Node, den: Option<FileSystem>)
    requires y.source == AwaitTimes(d, n) && AtTimes(s, y, d, n, den) && HasResponse(y.backward)
    ensures SourceStep(s, y).Some? && Inv(s, SourceStep(s, y).value, den)
  {
    ResponseBack("");
    assert ACK + "" == ACK;
    assert "" + MakeLine(n) + "\n" == MakeLine(n) + "\n";
  }

  lemma ContinueMake(s: Setup, y: System, d: Path, n: Node, den: Option<FileSystem>)
    requires y.source == AwaitMake(d, n) && AtMake(s, y, d, n, den) && HasResponse(y.backward)
    ensures SourceStep(s, y).Some? && Inv(s, SourceStep(s, y).value, den)
  {
    ResponseBack("");
    assert ACK + "" == ACK && ERROR + "" == ERROR;
    var p := d + [n.name];
    if Entered(s, y, d, n, den) {
      KidsFinish(s, y.fs, y.frames, p, n.kids, y.todo);
    } else if y.sink.Receiving? {
      SendFinish(s, y, d, n);
      var y' := SourceStep(s, y).value;
      if ReadFails(s, p, n) && s.sinkRemote {
        assert y'.forward == Sent(s, p, n);
      }
    }
  }

  lemma ContinueOther(s: Setup, y: System, den: Option<FileSystem>)
    requires y.source.AwaitStored? || y.source == AwaitDone
    requires Inv(s, y, den) && HasResponse(y.backward)
    ensures SourceStep(s, y).Some? && Inv(s, SourceStep(s, y).value, den)
  {
    ResponseBack("");
    assert ACK + "" == ACK && ERROR + "" == ERROR;
  }

  lemma SourceKeeps(s: Setup, y: System, den: Option<FileSystem>)
    requires Inv(s, y, den) && SourceStep(s, y).Some?
    ensures Inv(s, SourceStep(s, y).value, den)
  {
    match y.source
    case Ready => BeginKeeps(s, y, den);
    case AwaitTimes(d, n) => ContinueTimes(s, y, d, n, den);
    case AwaitMake(d, n) => ContinueMake(s, y, d, n, den);
    case AwaitStored(d, n) => ContinueOther(s, y, den);
    case AwaitDone => ContinueOther(s, y, den);
  }

  // ----- Steps of the sink -----

  /** An error report in front of the stream is read and dropped. */
  lemma DropError(s: Setup, y: System, e: string, rest: string)
    requires y.sink == Commands && y.frames != [] && e != "" && Errors(e) && y.forward == e + rest
    ensures SinkStep(s, y) == Some(y.(forward := e[|ERROR|..] + rest)) && Errors(e[|ERROR|..])
  {
    assert e == ERROR + e[|ERROR|..];
    assert y.forward == ERROR + (e[|ERROR|..] + rest);
    ResponseBack(e[|ERROR|..] + rest);
  }

  /** A record in front of the stream is read and obeyed. */
  lemma TakeLine(s: Setup, y: System, line: string)
    requires y.sink == Commands && y.frames != [] && '\n' !in line && y.forward == line + "\n"
    ensures SinkStep(s, y) == Some(Obey(s, y.(forward := ""), Parse(line)))
  {
    ReadLineBack(line, "");
    assert line + "\n" + "" == line + "\n";
  }

  lemma SinkAtReady(s: Setup, y: System, den: Option<FileSystem>)
    requires y.source == Ready && AtReady(s, y, den) && SinkStep(s, y).Some?
    ensures Inv(s, SinkStep(s, y).value, den)
  {
    if y.forward != "" {
      assert y.forward == y.forward + "";
      DropError(s, y, y.forward, "");
      assert y.forward[|ERROR|..] + "" == y.forward[|ERROR|..];
    }
  }

  /** A number of error reports in front of a record: one of them is dropped. */
  lemma DropOne(s: Setup, y: System, e: string, line: string)
    requires y.sink == Commands && y.frames != [] && e != "" && Errors(e) && y.forward == e + line + "\n"
    ensures SinkStep(s, y) == Some(y.(forward := e[|ERROR|..] + line + "\n")) && Errors(e[|ERROR|..])
  {
    assert y.forward == e + (line + "\n");
    DropError(s, y, e, line + "\n");
    assert e[|ERROR|..] + (line + "\n") == e[|ERROR|..] + line + "\n";
  }

  lemma SinkSetsTimes(s: Setup, y: System, d: Path, n: Node, den: Option<FileSystem>)
    requires y.sink == Commands && Sending(s, y, d, n, den) && y.backward == ""
    ensures var y' := Obey(s, y.(forward := ""), SetTimes(n.mtime, n.atime));
            AtTimes(s, y', d, n, den) && y'.source == y.source
  {
    var times := Some((n.mtime, n.atime));
    var todo := [Send(d, n)] + y.todo;
    assert todo[1..] == y.todo && Fits(y.frames, todo);
    TimesIgnored(s, y.fs, y.frames, todo, times);
    TimesIgnored(s, y.fs, y.frames, y.todo, times);
    assert "" + ACK == ACK;
  }

  lemma SinkAtTimes(s: Setup, y: System, d: Path, n: Node, den: Option<FileSystem>)
    requires y.source == AwaitTimes(d, n) && AtTimes(s, y, d, n, den) && SinkStep(s, y).Some?
    ensures Inv(s, SinkStep(s, y).value, den)
  {
    if y.backward == "" {
      var line := TimesLine(n.mtime, n.atime);
      var e :| Errors(e) && y.forward == e + line + "\n";
      if e != "" {
        DropOne(s, y, e, line);
      } else {
        assert y.forward == line + "\n";
        LinesPlain(0, 0, n.mtime, n.atime, "");
        TakeLine(s, y, line);
        ParseTimesBack(n.mtime, n.atime);
        SinkSetsTimes(s, y, d, n, den);
      }
    }
  }

  lemma SinkEnds(s: Setup, y: System, den: Option<FileSystem>)
    requires y.sink == Commands && y.backward == "" && y.source == AwaitDone
    requires Fits(y.frames, [EndDir] + y.todo) && Finish(s, y.fs, y.frames, [EndDir] + y.todo) == den
    ensures Answered(s, Obey(s, y.(forward := ""), End), den)
  {
    assert ([EndDir] + y.todo)[1..] == y.todo;
    assert "" + ACK == ACK;
  }

  lemma TakeEnd(s: Setup, y: System)
    requires y.sink == Commands && y.frames != [] && y.forward == "" + "E" + "\n"
    ensures SinkStep(s, y) == Some(Obey(s, y.(forward := ""), End))
  {
    assert y.forward == "E" + "\n";
    TakeLine(s, y, "E");
    ParseBack(0, 0, "");
  }

  lemma SinkAtDone(s: Setup, y: System, den: Option<FileSystem>)
    requires y.source == AwaitDone && AtDone(s, y, den) && SinkStep(s, y).Some?
    ensures Inv(s, SinkStep(s, y).value, den)
  {
    if y.backward == "" {
      var e :| Errors(e) && y.forward == e + "E" + "\n";
      if e != "" {
        DropOne(s, y, e, "E");
      } else {
        TakeEnd(s, y);
        SinkEnds(s, y, den);
      }
    }
  }

  lemma Pushed(frames: seq<Frame>, f: Frame)
    requires frames != []
    ensures var fs := frames + [f];
            Top(fs) == f && fs[|fs| - 2] == Top(frames) && Popped(fs) == WithTimes(frames, None)
  {
  }

  /** Making the directory and then sending its children comes to the same as sending the directory. */
  lemma DirFinish(s: Setup, fs: FileSystem, frames: seq<Frame>, d: Path, n: Node, todo: seq<Task>)
    requires n.Dir? && Legal(n) && Fits(frames, todo) && Top(frames).times == Some((n.mtime, n.atime))
    requires !s.sourceFault(d + [n.name]).Refused? && !SinkRefuses(s, fs, d + [n.name], true)
    ensures var p := d + [n.name];
            var frames' := frames + [Frame(p, None)];
            && Fits(Popped(frames'), todo)
            && Finish(s, DirMade(fs, d, p, n.mode % MODE_MASK), frames', Kids(p, n.kids) + [EndDir] + todo) ==
               (var r := Transfer(s, fs, d, n);
                if r.None? then None else Finish(s, r.value, frames, todo))
  {
    var p := d + [n.name];
    var fs', frames' := DirMade(fs, d, p, n.mode % MODE_MASK), frames + [Frame(p, None)];
    Pushed(frames, Frame(p, None));
    TimesIgnored(s, fs, frames, todo, None);
    KidsFinish(s, fs', frames', p, n.kids, todo);
    var r := TransferAll(s, fs', p, n.kids);
    if r.Some? {
      TimesIgnored(s, Closed(r.value, frames'), frames, todo, None);
    }
  }

  /** The record for n is in front of the sink. */
  ghost predicate Asked(s: Setup, y: System, d: Path, n: Node, den: Option<FileSystem>) {
    && y.source == AwaitMake(d, n) && y.sink == Commands && Sending(s, y, d, n, den) && Timed(y, n)
    && y.backward == "" && y.forward == MakeLine(n) + "\n"
  }

  lemma TakeMake(s: Setup, y: System, n: Node)
    requires y.sink == Commands && y.frames != [] && Legal(n) && y.forward == MakeLine(n) + "\n"
    ensures var r := if n.File? then MakeFile(n.mode % MODE_MASK, |n.data|, n.name)
                     else MakeDir(n.mode % MODE_MASK, n.name);
            SinkStep(s, y) == Some(Obey(s, y.(forward := ""), r))
  {
    LinesPlain(n.mode, if n.File? then |n.data| else 0, 0, 0, n.name);
    TakeLine(s, y, MakeLine(n));
    ParseBack(n.mode, if n.File? then |n.data| else 0, n.name);
  }

  lemma TakeDir(s: Setup, y: System, d: Path, n: Node, den: Option<FileSystem>)
    requires Asked(s, y, d, n, den) && n.Dir? && !SinkRefuses(s, y.fs, d + [n.name], true)
    ensures var p := d + [n.name];
            SinkStep(s, y) ==
            Some(y.(forward := "", backward := ACK,
                    fs := DirMade(y.fs, d, p, n.mode % MODE_MASK), frames := y.frames + [Frame(p, None)]))
  {
    TakeMake(s, y, n);
    assert "" + ACK == ACK;
  }

  lemma SinkMakesDir(s: Setup, y: System, d: Path, n: Node, den: Option<FileSystem>)
    requires Asked(s, y, d, n, den) && n.Dir? && !SinkRefuses(s, y.fs, d + [n.name], true)
    ensures SinkStep(s, y).Some?
    ensures var y' := SinkStep(s, y).value;
            Entered(s, y', d, n, den) && y'.backward == ACK && y'.forward == "" && y'.source == y.source
  {
    TakeDir(s, y, d, n, den);
    SendFinish(s, y, d, n);
    Pushed(y.frames, Frame(d + [n.name], None));
    DirFinish(s, y.fs, y.frames, d, n, y.todo);
  }

  lemma SinkMakesFile(s: Setup, y: System, d: Path, n: Node, den: Option<FileSystem>)
    requires Asked(s, y, d, n, den) && n.File? && !SinkRefuses(s, y.fs, d + [n.name], false)
    ensures SinkStep(s, y) ==
            Some(y.(forward := "", backward := ACK, sink := Receiving(d + [n.name], n.mode % MODE_MASK, |n.data|)))
  {
    TakeMake(s, y, n);
    assert "" + ACK == ACK;
  }

  lemma TakeRefused(s: Setup, y: System, d: Path, n: Node, den: Option<FileSystem>)
    requires Asked(s, y, d, n, den) && SinkRefuses(s, y.fs, d + [n.name], n.Dir?)
    ensures SinkStep(s, y) == Some(y.(forward := "", backward := Report(s.sinkRemote)))
  {
    TakeMake(s, y, n);
    assert "" + Report(s.sinkRemote) == Report(s.sinkRemote);
  }

  /** The sink refuses: it says so if it is remote, and otherwise both sides wait for good. */
  lemma SinkRefusesNode(s: Setup, y: System, d: Path, n: Node, den: Option<FileSystem>)
    requires Asked(s, y, d, n, den) && SinkRefuses(s, y.fs, d + [n.name], n.Dir?)
    ensures var y' := y.(forward := "", backward := Report(s.sinkRemote));
            (Answered(s, y', den) && y'.backward == ERROR) || Deadlocked(s, y', den)
  {
    SendFinish(s, y, d, n);
  }

  lemma SinkTakesMake(s: Setup, y: System, d: Path, n: Node, den: Option<FileSystem>)
    requires Asked(s, y, d, n, den) && SinkStep(s, y).Some?
    ensures Inv(s, SinkStep(s, y).value, den)
  {
    if SinkRefuses(s, y.fs, d + [n.name], n.Dir?) {
      TakeRefused(s, y, d, n, den);
      SinkRefusesNode(s, y, d, n, den);
    } else if n.File? {
      SinkMakesFile(s, y, d, n, den);
    } else {
      SinkMakesDir(s, y, d, n, den);
    }
  }

  lemma SinkAtMake(s: Setup, y: System, d: Path, n: Node, den: Option<FileSystem>)
    requires y.source == AwaitMake(d, n) && AtMake(s, y, d, n, den) && SinkStep(s, y).Some?
    ensures Inv(s, SinkStep(s, y).value, den)
  {
    if Asked(s, y, d, n, den) {
      SinkTakesMake(s, y, d, n, den);
    }
  }

  lemma StoreKeeps(s: Setup, y: System, d: Path, n: Node, den: Option<FileSystem>)
    requires y.source == AwaitStored(d, n) && ReceivingFile(y, d, n) && Sending(s, y, d, n, den) && Timed(y, n)
    requires !SinkRefuses(s, y.fs, d + [n.name], false) && y.backward == ""
    requires ReadFails(s, d + [n.name], n) ==> !s.sinkRemote
    ensures var y' := Store(s, y, Sent(s, d + [n.name], n), "");
            Answered(s, y', den) || Deadlocked(s, y', den)
  {
    var p := d + [n.name];
    var data := Sent(s, p, n);
    SendFinish(s, y, d, n);
    var fs' := Stamped(Written(y.fs, d, p, y.sink.mode, Stored(s, p, data)), p, n.mtime, n.atime);
    TimesIgnored(s, fs', y.frames, y.todo, None);
    assert "" + ACK == ACK && "" + ERROR == ERROR && "" + "" == "";
  }

  lemma SinkAtStored(s: Setup, y: System, d: Path, n: Node, den: Option<FileSystem>)
    requires y.source == AwaitStored(d, n) && AtStored(s, y, d, n, den) && SinkStep(s, y).Some?
    ensures Inv(s, SinkStep(s, y).value, den)
  {
    if y.sink.Receiving? {
      var size := y.sink.size;
      if |y.forward| > size {
        var p := d + [n.name];
        var data := Sent(s, p, n);
        var status := if ReadFails(s, p, n) then ERROR else ACK;
        assert |data| == size && y.forward[..size] == data && y.forward[size..] == status;
        assert SinkStep(s, y) == Some(Store(s, y, data, "")) by {
          ResponseBack("");
          assert ACK + "" == ACK && ERROR + "" == ERROR;
        }
        StoreKeeps(s, y, d, n, den);
      }
    }
  }

  lemma SinkKeeps(s: Setup, y: System, den: Option<FileSystem>)
    requires Inv(s, y, den) && SinkStep(s, y).Some?
    ensures Inv(s, SinkStep(s, y).value, den)
  {
    match y.source
    case Ready => SinkAtReady(s, y, den);
    case AwaitTimes(d, n) => SinkAtTimes(s, y, d, n, den);
    case AwaitMake(d, n) => SinkAtMake(s, y, d, n, den);
    case AwaitStored(d, n) => SinkAtStored(s, y, d, n, den);
    case AwaitDone => SinkAtDone(s, y, den);
  }

  // ----- Termination -----

  function MakeWeight(n: Node): nat
    decreases n, 0
  {
    match n
    case File(_, _, _, _, _) => 2
    case Dir(_, _, _, _, kids) => 3 + KidsWeight(kids)
  }

  function KidsWeight(ns: seq<Node>): nat
    decreases ns, 1
  {
    if ns == [] then 0 else 2 + MakeWeight(ns[0]) + KidsWeight(ns[1..])
  }

  function TodoWeight(todo: seq<Task>): nat {
    if todo == [] then 0
    else (if todo[0].EndDir? then 2 else 2 + MakeWeight(todo[0].node)) + TodoWeight(todo[1..])
  }

  /** How many more steps the source can take. */
  function SourceWeight(y: System): nat {
    TodoWeight(y.todo) +
    match y.source
    case Ready => 0
    case AwaitTimes(d, n) => 1 + MakeWeight(n)
    case AwaitMake(d, n) => MakeWeight(n)
    case AwaitStored(d, n) => 1
    case AwaitDone => 1
  }

  lemma {:induction false} TodoWeightKids(p: Path, ns: seq<Node>, todo: seq<Task>)
    ensures TodoWeight(Kids(p, ns) + [EndDir] + todo) == KidsWeight(ns) + 2 + TodoWeight(todo)
    decreases |ns|
  {
    var tasks := Kids(p, ns) + [EndDir] + todo;
    if ns == [] {
      assert tasks == [EndDir] + todo && tasks[1..] == todo;
    } else {
      assert tasks[1..] == Kids(p, ns[1..]) + [EndDir] + todo;
      TodoWeightKids(p, ns[1..], todo);
    }
  }

  /** Every step of the source lowers its weight. */
  lemma SourceProgress(s: Setup, y: System)
    requires SourceStep(s, y).Some?
    ensures SourceWeight(SourceStep(s, y).value) < SourceWeight(y)
  {
    if y.source.AwaitMake? && y.source.node.Dir? {
      TodoWeightKids(y.source.dir + [y.source.node.name], y.source.node.kids, y.todo);
    }
  }

  lemma {:induction false} ReadLineShorter(f: string)
    requires HasLine(f)
    ensures |ReadLine(f).1| < |f|
  {
    if f[0] != '\n' { ReadLineShorter(f[1..]); }
  }

  /** Every step of the sink leaves the source alone and shortens the stream. */
  lemma SinkProgress(s: Setup, y: System)
    requires SinkStep(s, y).Some?
    ensures var y' := SinkStep(s, y).value; y'.source == y.source && y'.todo == y.todo && |y'.forward| < |y.forward|
  {
    if y.sink == Commands {
      ReadLineShorter(y.forward);
    } else {
      var f := y.forward[y.sink.size..];
      if f[0] != '\0' { ReadLineShorter(f[1..]); }
    }
  }

  /**
   The state in which a run ends. The schedule says, in each state, which process moves when
   both can; since no state comes twice, every interleaving has a schedule.
   */
  ghost function RunWith(s: Setup, y: System, sourceFirst: System -> bool): System
    decreases SourceWeight(y), |y.forward|
  {
    if SourceStep(s, y).Some? && (sourceFirst(y) || SinkStep(s, y).None?) then
      SourceProgress(s, y);
      RunWith(s, SourceStep(s, y).value, sourceFirst)
    else if SinkStep(s, y).Some? then
      SinkProgress(s, y);
      RunWith(s, SinkStep(s, y).value, sourceFirst)
    else y
  }

  /** No process can move: the transfer is complete, or each waits for the other for good. */
  lemma Terminal(s: Setup, y: System, den: Option<FileSystem>)
    requires Inv(s, y, den) && SourceStep(s, y).None? && SinkStep(s, y).None?
    ensures den.Some? ==> Complete(y) && y.fs == den.value
    ensures den.None? ==> Deadlocked(s, y, den)
  {
    ResponseBack("");
    assert ACK + "" == ACK && ERROR + "" == ERROR;
  }

  lemma {:induction false} RunKeeps(s: Setup, y: System, sourceFirst: System -> bool, den: Option<FileSystem>)
    requires Inv(s, y, den)
    ensures var z := RunWith(s, y, sourceFirst);
            && (den.Some? ==> Complete(z) && z.fs == den.value)
            && (den.None? ==> Deadlocked(s, z, den))
    decreases SourceWeight(y), |y.forward|
  {
    if SourceStep(s, y).Some? && (sourceFirst(y) || SinkStep(s, y).None?) {
      SourceProgress(s, y);
      SourceKeeps(s, y, den);
      RunKeeps(s, SourceStep(s, y).value, sourceFirst, den);
    } else if SinkStep(s, y).Some? {
      SinkProgress(s, y);
      SinkKeeps(s, y, den);
      RunKeeps(s, SinkStep(s, y).value, sourceFirst, den);
    } else {
      Terminal(s, y, den);
    }
  }

  lemma {:induction false} InitialFinish(s: Setup, fs: FileSystem, d: Path, ns: seq<Node>)
    requires forall n :: n in ns ==> Legal(n)
    ensures Fits([Frame(d, None)], Kids(d, ns))
    ensures Finish(s, fs, [Frame(d, None)], Kids(d, ns)) == TransferAll(s, fs, d, ns)
    decreases |ns|
  {
    if ns != [] {
      assert Kids(d, ns)[1..] == Kids(d, ns[1..]);
      var r := Transfer(s, fs, d, ns[0]);
      InitialFinish(s, fs, d, ns[1..]);
      if r.Some? { InitialFinish(s, r.value, d, ns[1..]); }
    }
  }

  /**
   Every run ends. It ends complete, with the file system `TransferAll` gives, if no failure
   on the local side was in the way; otherwise it ends with both processes waiting.
   */
  lemma EveryRun(s: Setup, fs: FileSystem, d: Path, ns: seq<Node>, sourceFirst: System -> bool)
    requires Directory(fs, d) && forall n :: n in ns ==> Legal(n)
    ensures var z, den := RunWith(s, Initial(fs, d, ns), sourceFirst), TransferAll(s, fs, d, ns);
            && (Complete(z) <==> den.Some?)
            && (den.Some? ==> z.fs == den.value)
            && (den.None? ==> z.source != Ready && z.backward == "" && SourceStep(s, z).None? && SinkStep(s, z).None?)
  {
    InitialFinish(s, fs, d, ns);
    var den := TransferAll(s, fs, d, ns);
    RunKeeps(s, Initial(fs, d, ns), sourceFirst, den);
    var z := RunWith(s, Initial(fs, d, ns), sourceFirst);
    if den.None? { DeadlockedStays(s, z, den); }
  }

  lemma DeadlockedStays(s: Setup, y: System, den: Option<FileSystem>)
    requires Deadlocked(s, y, den)
    ensures SourceStep(s, y).None? && SinkStep(s, y).None?
  {
  }
}
