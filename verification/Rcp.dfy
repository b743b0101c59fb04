/**
 rcp -r -p (krcp.c): a directory tree is sent by `source`/`rsource` and rebuilt by `sink`,
 two processes that talk over two byte streams. Either process may be the remote one;
 only the remote one's `error` is sent to its peer, the local one's goes to the terminal.

 Failures of the file system are given in advance, for each path of the target tree: the
 source may be unable to open it or to read it, the sink to create it or to write it.
 */
module Rcp {
  import opened Options
  import opened RcpWire

  type Path = seq<string>

  // ----- Trees to send -----

  datatype Node =
    | File(name: string, mode: nat, mtime: nat, atime: nat, data: string)
    | Dir(name: string, mode: nat, mtime: nat, atime: nat, kids: seq<Node>)

  /** A name that a directory entry can have, and that a record can carry. */
  predicate LegalName(name: string) {
    && name != "" && name != "." && name != ".."
    && '/' !in name && '\n' !in name && '\0' !in name
  }

  predicate Legal(n: Node) {
    && LegalName(n.name)
    && (n.Dir? ==> forall k :: k in n.kids ==> Legal(k))
  }

  // ----- The receiving file system -----

  /** `Recent` is a time set by the system, `Exactly` one set by utimes. */
  datatype Stamp = Recent | Exactly(mtime: nat, atime: nat)

  datatype Entry =
    | FileEntry(mode: nat, content: string, stamp: Stamp)
    | DirEntry(mode: nat, stamp: Stamp)

  type FileSystem = map<Path, Entry>

  /** A directory in which something is created gets a new modification time. */
  function Touch(fs: FileSystem, d: Path): FileSystem {
    if d in fs then fs[d := fs[d].(stamp := Recent)] else fs
  }

  function Stamped(fs: FileSystem, p: Path, mtime: nat, atime: nat): FileSystem {
    if p in fs then fs[p := fs[p].(stamp := Exactly(mtime, atime))] else fs
  }

  function Written(fs: FileSystem, d: Path, p: Path, mode: nat, content: string): FileSystem {
    (if p in fs then fs else Touch(fs, d))[p := FileEntry(mode, content, Recent)]
  }

  function DirMade(fs: FileSystem, d: Path, p: Path, mode: nat): FileSystem {
    if p in fs then fs[p := fs[p].(mode := mode)] else Touch(fs, d)[p := DirEntry(mode, Recent)]
  }

  // ----- Failures -----

  /** Cannot be opened or made; or gives wrong bytes when it is read or written. */
  datatype Fault = Fine | Refused | Damaged(bytes: string)

  datatype Setup = Setup(sinkRemote: bool, sourceFault: Path -> Fault, sinkFault: Path -> Fault)

  /** Whatever is left in the buffer, cut or filled to the announced length. */
  function Garbled(bytes: string, size: nat): string {
    seq(size, i => if 0 <= i < |bytes| then bytes[i] else '\0')
  }

  predicate ReadFails(s: Setup, p: Path, n: Node)
    requires n.File?
  {
    n.data != "" && s.sourceFault(p).Damaged?
  }

  /** The bytes the source sends for a file, in the announced number. */
  function Sent(s: Setup, p: Path, n: Node): string
    requires n.File?
  {
    if ReadFails(s, p, n) then Garbled(s.sourceFault(p).bytes, |n.data|) else n.data
  }

  predicate SinkRefuses(s: Setup, fs: FileSystem, p: Path, dir: bool) {
    if dir then (if p in fs then !fs[p].DirEntry? else s.sinkFault(p).Refused?)
    else s.sinkFault(p).Refused? || (p in fs && fs[p].DirEntry?)
  }

  predicate WriteFails(s: Setup, p: Path, size: nat) {
    size > 0 && s.sinkFault(p).Damaged?
  }

  function Stored(s: Setup, p: Path, received: string): string {
    if WriteFails(s, p, |received|) then s.sinkFault(p).bytes else received
  }

  // ----- What a transfer should do -----

  /**
   The file system after node n has been sent into directory d, or None if a failure on
   the local side stops the transfer: the sink cannot make a file, or the source cannot
   read one, or the sink cannot write one, and the peer is not told.
   */
  function Transfer(s: Setup, fs: FileSystem, d: Path, n: Node): Option<FileSystem>
    decreases n, 0
  {
    var p := d + [n.name];
    if s.sourceFault(p).Refused? then Some(fs)
    else if SinkRefuses(s, fs, p, n.Dir?) then (if s.sinkRemote then Some(fs) else None)
    else match n
      case File(name, mode, mtime, atime, data) =>
        if ReadFails(s, p, n) && s.sinkRemote then None
        else if WriteFails(s, p, |data|) && !s.sinkRemote then None
        else Some(Stamped(Written(fs, d, p, mode % MODE_MASK, Stored(s, p, Sent(s, p, n))), p, mtime, atime))
      case Dir(name, mode, mtime, atime, kids) =>
        var r := TransferAll(s, DirMade(fs, d, p, mode % MODE_MASK), p, kids);
        if r.None? then None else Some(Stamped(r.value, p, mtime, atime))
  }

  function TransferAll(s: Setup, fs: FileSystem, d: Path, ns: seq<Node>): Option<FileSystem>
    decreases ns, 1
  {
    if ns == [] then Some(fs)
    else
      var r := Transfer(s, fs, d, ns[0]);
      if r.None? then None else TransferAll(s, r.value, d, ns[1..])
  }

  // ----- The two processes -----

  /** Work the source has still to do: send a node, or end a directory. */
  datatype Task = Send(dir: Path, node: Node) | EndDir

  datatype SourceState =
    | Ready
    | AwaitTimes(dir: Path, node: Node)
    | AwaitMake(dir: Path, node: Node)
    | AwaitStored(dir: Path, node: Node)
    | AwaitDone

  /** One activation of `sink`: its target, and the times to set, if a T record came. */
  datatype Frame = Frame(path: Path, times: Option<(nat, nat)>)

  datatype SinkState =
    | Commands
    | Receiving(path: Path, mode: nat, size: nat)
    | Exited

  datatype System = System(
    source: SourceState, todo: seq<Task>, sink: SinkState, frames: seq<Frame>,
    forward: string, backward: string, fs: FileSystem)

  function Kids(d: Path, ns: seq<Node>): seq<Task> {
    if ns == [] then [] else [Send(d, ns[0])] + Kids(d, ns[1..])
  }

  /** What a failing process puts on the stream to its peer. */
  function Report(remote: bool): string {
    if remote then ERROR else ""
  }

  /** The source takes up its next piece of work. */
  function Begin(s: Setup, y: System): System
    requires y.source == Ready && y.todo != []
  {
    var rest := y.(todo := y.todo[1..]);
    match y.todo[0]
    case EndDir => rest.(source := AwaitDone, forward := y.forward + "E" + "\n")
    case Send(dir, n) =>
      if s.sourceFault(dir + [n.name]).Refused? then
        rest.(forward := y.forward + Report(!s.sinkRemote))
      else
        rest.(source := AwaitTimes(dir, n), forward := y.forward + TimesLine(n.mtime, n.atime) + "\n")
  }

  /** The source goes on after a response. */
  function Continue(s: Setup, y: System, ok: bool): System
    requires y.source != Ready
  {
    match y.source
    case AwaitTimes(dir, n) =>
      if !ok then y.(source := Ready)
      else
        var line := if n.File? then FileLine(n.mode, |n.data|, n.name) else DirLine(n.mode, n.name);
        y.(source := AwaitMake(dir, n), forward := y.forward + line + "\n")
    case AwaitMake(dir, n) =>
      var p := dir + [n.name];
      if !ok then y.(source := Ready)
      else if n.Dir? then
        y.(source := Ready, todo := Kids(p, n.kids) + [EndDir] + y.todo)
      else
        var status := if ReadFails(s, p, n) then Report(!s.sinkRemote) else ACK;
        y.(source := AwaitStored(dir, n), forward := y.forward + (Sent(s, p, n) + status))
    case AwaitStored(_, _) => y.(source := Ready)
    case AwaitDone => y.(source := Ready)
  }

  function SourceStep(s: Setup, y: System): Option<System> {
    if y.source == Ready then (if y.todo == [] then None else Some(Begin(s, y)))
    else if !HasResponse(y.backward) then None
    else
      var (ok, backward) := ReadResponse(y.backward);
      Some(Continue(s, y.(backward := backward), ok))
  }

  /** The sink, on its innermost activation, obeys one record. */
  function Obey(s: Setup, y: System, r: Record): System
    requires y.frames != []
  {
    var last := |y.frames| - 1;
    var top := y.frames[last];
    match r
    case Failure => y
    case Fatal => y.(sink := Exited)
    case Screwup => y.(sink := Exited)
    case SetTimes(mtime, atime) =>
      y.(frames := y.frames[last := top.(times := Some((mtime, atime)))], backward := y.backward + ACK)
    case End =>
      if last == 0 then y.(sink := Exited, backward := y.backward + ACK)
      else
        var outer := y.frames[last - 1];
        var fs := if outer.times.None? then y.fs else Stamped(y.fs, top.path, outer.times.value.0, outer.times.value.1);
        y.(frames := y.frames[..last - 1] + [outer.(times := None)], backward := y.backward + ACK, fs := fs)
    case MakeDir(mode, name) =>
      var p := top.path + [name];
      if SinkRefuses(s, y.fs, p, true) then y.(backward := y.backward + Report(s.sinkRemote))
      else y.(frames := y.frames + [Frame(p, None)], backward := y.backward + ACK,
              fs := DirMade(y.fs, top.path, p, mode))
    case MakeFile(mode, size, name) =>
      var p := top.path + [name];
      if SinkRefuses(s, y.fs, p, false) then y.(backward := y.backward + Report(s.sinkRemote))
      else y.(sink := Receiving(p, mode, size), backward := y.backward + ACK)
  }

  /** The file has come in, and so has the source's status: store it and answer. */
  function Store(s: Setup, y: System, data: string, forward: string): System
    requires y.frames != [] && y.sink.Receiving?
  {
    var last := |y.frames| - 1;
    var top := y.frames[last];
    var p := y.sink.path;
    var written := Written(y.fs, top.path, p, y.sink.mode, Stored(s, p, data));
    y.(sink := Commands, forward := forward,
       frames := y.frames[last := top.(times := None)],
       fs := if top.times.None? then written else Stamped(written, p, top.times.value.0, top.times.value.1),
       backward := y.backward + (if WriteFails(s, p, |data|) then Report(s.sinkRemote) else ACK))
  }

  /** The sink waits for a whole record, or for a whole file and the status after it. */
  function SinkStep(s: Setup, y: System): Option<System> {
    if y.frames == [] then None
    else match y.sink
      case Exited => None
      case Commands =>
        if !HasLine(y.forward) then None
        else
          var (line, forward) := ReadLine(y.forward);
          Some(Obey(s, y.(forward := forward), Parse(line)))
      case Receiving(path, mode, size) =>
        if |y.forward| < size || !HasResponse(y.forward[size..]) then None
        else Some(Store(s, y, y.forward[..size], ReadResponse(y.forward[size..]).1))
  }

  predicate Directory(fs: FileSystem, d: Path) {
    d in fs && fs[d].DirEntry?
  }

  /** The sink has just said it is ready to receive into an existing directory, and the source has its work. */
  function Initial(fs: FileSystem, d: Path, ns: seq<Node>): System
    requires Directory(fs, d)
  {
    System(AwaitDone, Kids(d, ns), Commands, [Frame(d, None)], "", ACK, fs)
  }

  /** All work is done and nothing is on its way; the source now closes the connection. */
  predicate Complete(y: System) {
    && y.source == Ready && y.todo == [] && y.sink == Commands && |y.frames| == 1
    && y.forward == "" && y.backward == ""
  }
}
