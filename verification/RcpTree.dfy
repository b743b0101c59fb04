/**
 What a transfer leaves behind: the tree that was sent, less the files and subtrees that could
 not be opened or made, over what was there before. And exactly when a run completes.
 */
module RcpTree {
  import opened Options
  import opened RcpWire
  import opened Rcp
  import opened RcpRuns

  // ----- The expected entries -----

  /** The node at this path, and all below it, is not sent or not made. */
  predicate Lost(s: Setup, fs: FileSystem, p: Path, dir: bool) {
    s.sourceFault(p).Refused? || SinkRefuses(s, fs, p, dir)
  }

  function EntryOf(s: Setup, p: Path, n: Node): Entry {
    match n
    case File(name, mode, mtime, atime, data) =>
      FileEntry(mode % MODE_MASK, Stored(s, p, Sent(s, p, n)), Exactly(mtime, atime))
    case Dir(name, mode, mtime, atime, kids) => DirEntry(mode % MODE_MASK, Exactly(mtime, atime))
  }

  /** What becomes of a node, by the failures that strike it. */
  lemma EntryMeans(s: Setup, p: Path, n: Node)
    ensures var e := EntryOf(s, p, n);
            && e.mode == n.mode % 4096 && e.stamp == Exactly(n.mtime, n.atime) && e.DirEntry? == n.Dir?
            && (n.File? ==>
                  if n.data == "" || (!s.sourceFault(p).Damaged? && !s.sinkFault(p).Damaged?) then e.content == n.data
                  else if s.sinkFault(p).Damaged? then e.content == s.sinkFault(p).bytes
                  else |e.content| == |n.data| && forall i :: 0 <= i < |n.data| ==>
                         e.content[i] == if i < |s.sourceFault(p).bytes| then s.sourceFault(p).bytes[i] else '\0')
  {
  }

  /** A node is lost if either side cannot open or make it, or if something of the other kind is in its place. */
  lemma LostMeans(s: Setup, fs: FileSystem, p: Path, dir: bool)
    ensures Lost(s, fs, p, dir) <==>
            || s.sourceFault(p) == Refused
            || (p in fs && fs[p].DirEntry? != dir)
            || (s.sinkFault(p) == Refused && !(dir && p in fs))
  {
  }

  /** The entries a node gives rise to, under directory d of a file system that may hold some of them already. */
  function Image(s: Setup, fs: FileSystem, d: Path, n: Node): map<Path, Entry>
    decreases n, 0
  {
    var p := d + [n.name];
    if Lost(s, fs, p, n.Dir?) then map[]
    else if n.File? then map[p := EntryOf(s, p, n)]
    else Images(s, fs, p, n.kids)[p := EntryOf(s, p, n)]
  }

  function Images(s: Setup, fs: FileSystem, d: Path, ns: seq<Node>): map<Path, Entry>
    decreases ns, 1
  {
    if ns == [] then map[] else Image(s, fs, d, ns[0]) + Images(s, fs, d, ns[1..])
  }

  /** A failure at this node that its side does not report to the other. */
  predicate Blocked(s: Setup, fs: FileSystem, p: Path, n: Node) {
    && !s.sourceFault(p).Refused?
    && if SinkRefuses(s, fs, p, n.Dir?) then !s.sinkRemote
       else n.File? && ((ReadFails(s, p, n) && s.sinkRemote) || (WriteFails(s, p, |n.data|) && !s.sinkRemote))
  }

  /** A node is blocked if the local side cannot make it, read it or write it. */
  lemma BlockedMeans(s: Setup, fs: FileSystem, p: Path, n: Node)
    ensures Blocked(s, fs, p, n) <==>
            && s.sourceFault(p) != Refused
            && var kept := (p in fs ==> fs[p].DirEntry? == n.Dir?) && (s.sinkFault(p) == Refused ==> n.Dir? && p in fs);
               if s.sinkRemote then kept && n.File? && n.data != "" && s.sourceFault(p).Damaged?
               else !kept || (n.File? && n.data != "" && s.sinkFault(p).Damaged?)
  {
  }

  /** No node of the tree that is reached is blocked. */
  predicate Flows(s: Setup, fs: FileSystem, d: Path, n: Node)
    decreases n, 0
  {
    var p := d + [n.name];
    !Blocked(s, fs, p, n) && (n.Dir? && !Lost(s, fs, p, true) ==> FlowsAll(s, fs, p, n.kids))
  }

  predicate FlowsAll(s: Setup, fs: FileSystem, d: Path, ns: seq<Node>)
    decreases ns, 1
  {
    ns == [] || (Flows(s, fs, d, ns[0]) && FlowsAll(s, fs, d, ns[1..]))
  }

  /** The node is new in its directory. */
  predicate Creates(s: Setup, fs: FileSystem, d: Path, n: Node) {
    !Lost(s, fs, d + [n.name], n.Dir?) && d + [n.name] !in fs
  }

  predicate CreatesAny(s: Setup, fs: FileSystem, d: Path, ns: seq<Node>) {
    ns != [] && (Creates(s, fs, d, ns[0]) || CreatesAny(s, fs, d, ns[1..]))
  }

  /** No two nodes of a directory have the same name. */
  predicate Distinct(n: Node) {
    n.Dir? ==> DistinctAll(n.kids)
  }

  predicate DistinctAll(ns: seq<Node>) {
    && (forall i, j :: 0 <= i < j < |ns| ==> ns[i].name != ns[j].name)
    && (forall k :: k in ns ==> Distinct(k))
  }

  /** At p and below it both have files and directories at the same places. */
  ghost predicate Alike(fs: FileSystem, fs': FileSystem, p: Path) {
    forall q :: p <= q ==> (q in fs <==> q in fs') && (q in fs ==> fs[q].DirEntry? == fs'[q].DirEntry?)
  }

  lemma AlikeBelow(fs: FileSystem, fs': FileSystem, p: Path, name: string)
    requires Alike(fs, fs', p)
    ensures Alike(fs, fs', p + [name])
  {
    forall q | p + [name] <= q
      ensures (q in fs <==> q in fs') && (q in fs ==> fs[q].DirEntry? == fs'[q].DirEntry?)
    {
      assert p <= q;
    }
  }

  /** What a node gives rise to depends only on what is at its place and below. */
  lemma {:induction false} ImageAlike(s: Setup, fs: FileSystem, fs': FileSystem, d: Path, n: Node)
    requires Alike(fs, fs', d + [n.name])
    ensures Image(s, fs, d, n) == Image(s, fs', d, n) && Flows(s, fs, d, n) == Flows(s, fs', d, n)
    ensures Creates(s, fs, d, n) == Creates(s, fs', d, n)
    decreases n, 0
  {
    var p := d + [n.name];
    assert p <= p;
    if n.Dir? {
      forall k | k in n.kids ensures Alike(fs, fs', p + [k.name]) {
        AlikeBelow(fs, fs', p, k.name);
      }
      ImagesAlike(s, fs, fs', p, n.kids);
    }
  }

  lemma {:induction false} ImagesAlike(s: Setup, fs: FileSystem, fs': FileSystem, d: Path, ns: seq<Node>)
    requires forall k :: k in ns ==> Alike(fs, fs', d + [k.name])
    ensures Images(s, fs, d, ns) == Images(s, fs', d, ns) && FlowsAll(s, fs, d, ns) == FlowsAll(s, fs', d, ns)
    ensures CreatesAny(s, fs, d, ns) == CreatesAny(s, fs', d, ns)
    decreases ns, 1
  {
    if ns != [] {
      ImageAlike(s, fs, fs', d, ns[0]);
      ImagesAlike(s, fs, fs', d, ns[1..]);
    }
  }

  lemma {:induction false} ImageBelow(s: Setup, fs: FileSystem, d: Path, n: Node, q: Path)
    requires q in Image(s, fs, d, n)
    ensures d + [n.name] <= q
    decreases n, 0
  {
    var p := d + [n.name];
    if n.Dir? && q != p {
      var k := ImagesBelow(s, fs, p, n.kids, q);
    }
  }

  lemma {:induction false} ImagesBelow(s: Setup, fs: FileSystem, d: Path, ns: seq<Node>, q: Path) returns (k: nat)
    requires q in Images(s, fs, d, ns)
    ensures k < |ns| && d + [ns[k].name] <= q
    decreases ns, 1
  {
    if q in Image(s, fs, d, ns[0]) {
      ImageBelow(s, fs, d, ns[0], q);
      k := 0;
    } else {
      k := ImagesBelow(s, fs, d, ns[1..], q);
      k := k + 1;
    }
  }

  /** Making a directory changes nothing in it. */
  lemma AlikeInside(fs: FileSystem, d: Path, n: Node)
    requires n.Dir? && (d + [n.name] in fs ==> fs[d + [n.name]].DirEntry?)
    ensures forall k :: k in n.kids ==>
                          Alike(fs, DirMade(fs, d, d + [n.name], n.mode % MODE_MASK), d + [n.name] + [k.name])
  {
    var p := d + [n.name];
    var made := DirMade(fs, d, p, n.mode % MODE_MASK);
    forall k, q | k in n.kids && p + [k.name] <= q
      ensures (q in fs <==> q in made) && (q in fs ==> fs[q].DirEntry? == made[q].DirEntry?)
    {
      assert q != p && q != d;
    }
  }

  /** What the first of several nodes leaves behind is out of the way of the others. */
  lemma AlikeBeside(s: Setup, fs: FileSystem, base: FileSystem, d: Path, ns: seq<Node>)
    requires ns != [] && DistinctAll(ns) && (base == fs || base == Touch(fs, d))
    ensures forall k :: k in ns[1..] ==> Alike(fs, base + Image(s, fs, d, ns[0]), d + [k.name])
  {
    forall k, q | k in ns[1..] && d + [k.name] <= q ensures q != d && q !in Image(s, fs, d, ns[0]) {
      var i :| 0 <= i < |ns[1..]| && ns[1..][i] == k;
      assert k == ns[i + 1] && k.name != ns[0].name;
      assert q[|d|] == (d + [k.name])[|d|] == k.name;
      if q in Image(s, fs, d, ns[0]) { ImageBelow(s, fs, d, ns[0], q); }
    }
  }

  // ----- The transfer leaves the image -----

  lemma DirImage(fs: FileSystem, d: Path, p: Path, mode: nat, mtime: nat, atime: nat,
                 images: map<Path, Entry>, touched: bool)
    requires p !in images && (p in fs ==> fs[p].DirEntry?) && p != d
    ensures var made := DirMade(fs, d, p, mode);
            Stamped((if touched then Touch(made, p) else made) + images, p, mtime, atime) ==
            (if p in fs then fs else Touch(fs, d)) + images[p := DirEntry(mode, Exactly(mtime, atime))]
  {
  }

  lemma FileImage(fs: FileSystem, d: Path, p: Path, e: Entry)
    requires e.FileEntry? && e.stamp.Exactly? && p != d
    ensures Stamped(Written(fs, d, p, e.mode, e.content), p, e.stamp.mtime, e.stamp.atime) ==
            (if p in fs then fs else Touch(fs, d)) + map[p := e]
  {
  }

  lemma Outside(s: Setup, fs: FileSystem, p: Path, ns: seq<Node>)
    ensures p !in Images(s, fs, p, ns)
  {
    if p in Images(s, fs, p, ns) {
      var k := ImagesBelow(s, fs, p, ns, p);
    }
  }

  /** Sending n adds its image and touches the directory if n is new there, unless a node is blocked. */
  lemma {:induction false} TransferImage(s: Setup, fs: FileSystem, d: Path, n: Node)
    requires Distinct(n)
    ensures Transfer(s, fs, d, n) ==
            if Flows(s, fs, d, n) then Some((if Creates(s, fs, d, n) then Touch(fs, d) else fs) + Image(s, fs, d, n))
            else None
    decreases n, 0
  {
    var p := d + [n.name];
    assert fs + map[] == fs;
    if !Lost(s, fs, p, n.Dir?) && n.File? {
      FileImage(fs, d, p, EntryOf(s, p, n));
    }
    if !Lost(s, fs, p, n.Dir?) && n.Dir? {
      var made := DirMade(fs, d, p, n.mode % MODE_MASK);
      AlikeInside(fs, d, n);
      ImagesAlike(s, fs, made, p, n.kids);
      TransferAllImage(s, made, p, n.kids);
      Outside(s, fs, p, n.kids);
      DirImage(fs, d, p, n.mode % MODE_MASK, n.mtime, n.atime, Images(s, fs, p, n.kids), CreatesAny(s, fs, p, n.kids));
    }
  }

  lemma JoinMaps(a: FileSystem, b: FileSystem, c: FileSystem)
    ensures a + b + c == a + (b + c)
  {
  }

  lemma TouchJoined(fs: FileSystem, d: Path, image: FileSystem)
    requires d !in image
    ensures Touch(fs + image, d) == Touch(fs, d) + image && Touch(Touch(fs, d), d) == Touch(fs, d)
  {
  }

  lemma {:induction false} TransferAllImage(s: Setup, fs: FileSystem, d: Path, ns: seq<Node>)
    requires DistinctAll(ns)
    ensures TransferAll(s, fs, d, ns) ==
            if FlowsAll(s, fs, d, ns)
            then Some((if CreatesAny(s, fs, d, ns) then Touch(fs, d) else fs) + Images(s, fs, d, ns))
            else None
    decreases ns, 1
  {
    assert fs + map[] == fs;
    if ns != [] {
      var n := ns[0];
      var image := Image(s, fs, d, n);
      TransferImage(s, fs, d, n);
      if Flows(s, fs, d, n) {
        var base := if Creates(s, fs, d, n) then Touch(fs, d) else fs;
        AlikeBeside(s, fs, base, d, ns);
        ImagesAlike(s, fs, base + image, d, ns[1..]);
        TransferAllImage(s, base + image, d, ns[1..]);
        assert d !in image by {
          if d in image { ImageBelow(s, fs, d, n, d); }
        }
        TouchJoined(fs, d, image);
        TouchJoined(base, d, image);
        var rest := Images(s, fs, d, ns[1..]);
        JoinMaps(fs, image, rest);
        JoinMaps(Touch(fs, d), image, rest);
      }
    }
  }

  // ----- The image, path by path -----

  function KidNamed(ns: seq<Node>, name: string): Option<Node> {
    if ns == [] then None else if ns[0].name == name then Some(ns[0]) else KidNamed(ns[1..], name)
  }

  /** The node at a relative path below n. */
  function At(n: Node, r: Path): Option<Node>
    decreases |r|
  {
    if r == [] then Some(n)
    else if n.File? then None
    else
      var k := KidNamed(n.kids, r[0]);
      if k.None? then None else At(k.value, r[1..])
  }

  /** The directories on the way from p to p + r are all made. */
  ghost predicate Reached(s: Setup, fs: FileSystem, p: Path, r: Path) {
    forall i :: 0 <= i < |r| ==> !Lost(s, fs, p + r[..i], true)
  }

  /** The node at p + r is reached and made. */
  ghost predicate Survives(s: Setup, fs: FileSystem, p: Path, n: Node, r: Path) {
    At(n, r).Some? && Reached(s, fs, p, r) && !Lost(s, fs, p + r, At(n, r).value.Dir?)
  }

  lemma ReachedStep(s: Setup, fs: FileSystem, p: Path, r: Path)
    requires r != []
    ensures Reached(s, fs, p, r) <==> !Lost(s, fs, p, true) && Reached(s, fs, p + [r[0]], r[1..])
    ensures p + r == p + [r[0]] + r[1..]
  {
    assert p + r[..0] == p;
    forall i | 0 <= i < |r| - 1 ensures p + r[..i + 1] == p + [r[0]] + r[1..][..i] {
      assert r[..i + 1] == [r[0]] + r[1..][..i];
    }
    if Reached(s, fs, p, r) {
      assert !Lost(s, fs, p + r[..0], true);
      forall i | 0 <= i < |r[1..]| ensures !Lost(s, fs, p + [r[0]] + r[1..][..i], true) {
        assert !Lost(s, fs, p + r[..i + 1], true);
      }
    }
    if !Lost(s, fs, p, true) && Reached(s, fs, p + [r[0]], r[1..]) {
      forall i | 0 <= i < |r| ensures !Lost(s, fs, p + r[..i], true) {
        if i > 0 { assert !Lost(s, fs, p + [r[0]] + r[1..][..i - 1], true); }
      }
    }
  }

  lemma {:induction false} ImagesAt(s: Setup, fs: FileSystem, d: Path, ns: seq<Node>, q: Path)
    requires |q| > |d| && d <= q && DistinctAll(ns)
    ensures q in Images(s, fs, d, ns) <==>
            KidNamed(ns, q[|d|]).Some? && q in Image(s, fs, d, KidNamed(ns, q[|d|]).value)
    ensures q in Images(s, fs, d, ns) ==> Images(s, fs, d, ns)[q] == Image(s, fs, d, KidNamed(ns, q[|d|]).value)[q]
    decreases |ns|
  {
    if ns != [] {
      ImagesAt(s, fs, d, ns[1..], q);
      if q in Image(s, fs, d, ns[0]) { ImageBelow(s, fs, d, ns[0], q); }
      if q in Images(s, fs, d, ns[1..]) {
        var k := ImagesBelow(s, fs, d, ns[1..], q);
        assert ns[1..][k] == ns[k + 1];
      }
    }
  }

  /** An entry is there exactly for the nodes that survive, and it is the node's. */
  lemma {:induction false} ImageAt(s: Setup, fs: FileSystem, d: Path, n: Node, r: Path)
    requires Distinct(n)
    ensures var p := d + [n.name];
            && (p + r in Image(s, fs, d, n) <==> Survives(s, fs, p, n, r))
            && (p + r in Image(s, fs, d, n) ==> Image(s, fs, d, n)[p + r] == EntryOf(s, p + r, At(n, r).value))
    decreases |r|
  {
    var p := d + [n.name];
    if r == [] {
      assert p + r == p;
    } else {
      ReachedStep(s, fs, p, r);
      if n.Dir? {
        ImagesAt(s, fs, p, n.kids, p + r);
        var k := KidNamed(n.kids, r[0]);
        if k.Some? {
          KidNamedIs(n.kids, r[0]);
          ImageAt(s, fs, p, k.value, r[1..]);
        }
      }
    }
  }

  lemma {:induction false} KidNamedIs(ns: seq<Node>, name: string)
    requires KidNamed(ns, name).Some?
    ensures KidNamed(ns, name).value in ns && KidNamed(ns, name).value.name == name
  {
    if ns[0].name != name { KidNamedIs(ns[1..], name); }
  }

  lemma {:induction false} KidNamedSelf(ns: seq<Node>, i: nat)
    requires DistinctAll(ns) && i < |ns|
    ensures KidNamed(ns, ns[i].name) == Some(ns[i])
  {
    if i > 0 { KidNamedSelf(ns[1..], i - 1); }
  }

  // ----- The blocked nodes, path by path -----

  lemma {:induction false} FlowsIn(s: Setup, fs: FileSystem, d: Path, ns: seq<Node>, k: Node)
    requires FlowsAll(s, fs, d, ns) && k in ns
    ensures Flows(s, fs, d, k)
  {
    if ns[0] != k { FlowsIn(s, fs, d, ns[1..], k); }
  }

  lemma {:induction false} FlowsAt(s: Setup, fs: FileSystem, d: Path, n: Node, r: Path)
    requires Flows(s, fs, d, n) && At(n, r).Some? && Reached(s, fs, d + [n.name], r)
    ensures !Blocked(s, fs, d + [n.name] + r, At(n, r).value)
    decreases |r|
  {
    var p := d + [n.name];
    if r == [] {
      assert p + r == p;
    } else {
      ReachedStep(s, fs, p, r);
      KidNamedIs(n.kids, r[0]);
      var k := KidNamed(n.kids, r[0]).value;
      FlowsIn(s, fs, p, n.kids, k);
      FlowsAt(s, fs, p, k, r[1..]);
    }
  }

  lemma {:induction false} BlockedAt(s: Setup, fs: FileSystem, d: Path, n: Node) returns (r: Path)
    requires Distinct(n) && !Flows(s, fs, d, n)
    ensures At(n, r).Some? && Reached(s, fs, d + [n.name], r) && Blocked(s, fs, d + [n.name] + r, At(n, r).value)
    decreases n, 0
  {
    var p := d + [n.name];
    if Blocked(s, fs, p, n) {
      r := [];
      assert p + r == p;
    } else {
      var i, r' := BlockedIn(s, fs, p, n.kids);
      KidNamedSelf(n.kids, i);
      r := [n.kids[i].name] + r';
      assert r[1..] == r';
      ReachedStep(s, fs, p, r);
    }
  }

  lemma {:induction false} BlockedIn(s: Setup, fs: FileSystem, d: Path, ns: seq<Node>) returns (i: nat, r: Path)
    requires DistinctAll(ns) && !FlowsAll(s, fs, d, ns)
    ensures i < |ns| && At(ns[i], r).Some? && Reached(s, fs, d + [ns[i].name], r)
    ensures Blocked(s, fs, d + [ns[i].name] + r, At(ns[i], r).value)
    decreases ns, 1
  {
    if !Flows(s, fs, d, ns[0]) {
      i := 0;
      r := BlockedAt(s, fs, d, ns[0]);
    } else {
      i, r := BlockedIn(s, fs, d, ns[1..]);
      i := i + 1;
    }
  }

  // ----- Whole transfers -----

  /** The node at p + r is reached and blocked. */
  ghost predicate Stuck(s: Setup, fs: FileSystem, p: Path, n: Node, r: Path) {
    At(n, r).Some? && Reached(s, fs, p, r) && Blocked(s, fs, p + r, At(n, r).value)
  }

  lemma AllFlows(s: Setup, fs: FileSystem, d: Path, n: Node)
    requires Distinct(n)
    ensures Flows(s, fs, d, n) <==> forall r :: !Stuck(s, fs, d + [n.name], n, r)
  {
    if Flows(s, fs, d, n) {
      forall r ensures !Stuck(s, fs, d + [n.name], n, r) {
        if At(n, r).Some? && Reached(s, fs, d + [n.name], r) { FlowsAt(s, fs, d, n, r); }
      }
    } else {
      var r := BlockedAt(s, fs, d, n);
      assert Stuck(s, fs, d + [n.name], n, r);
    }
  }

  /** Every run completes, if and only if no node that is reached meets a failure that goes unreported. */
  lemma CompletesIff(s: Setup, fs: FileSystem, d: Path, n: Node, sourceFirst: System -> bool)
    requires Legal(n) && Distinct(n) && Directory(fs, d)
    ensures var z := RunWith(s, Initial(fs, d, [n]), sourceFirst);
            Complete(z) <==> forall r :: !Stuck(s, fs, d + [n.name], n, r)
  {
    EveryRun(s, fs, d, [n], sourceFirst);
    OneNode(s, fs, d, n);
    TransferImage(s, fs, d, n);
    AllFlows(s, fs, d, n);
  }

  lemma OneNode(s: Setup, fs: FileSystem, d: Path, n: Node)
    ensures TransferAll(s, fs, d, [n]) == Transfer(s, fs, d, n)
  {
    assert [n][1..] == [];
  }

  /** What is at path q when the tree n has been put at p, in a file system that was fs. */
  ghost predicate Merged(s: Setup, fs: FileSystem, p: Path, n: Node, fs': FileSystem, q: Path) {
    if p <= q && Survives(s, fs, p, n, q[|p|..]) then
      q in fs' && fs'[q] == EntryOf(s, q, At(n, q[|p|..]).value)
    else
      && (q in fs' <==> q in fs)
      && (q in fs ==>
            fs'[q] == if p == q + [n.name] && p !in fs && Survives(s, fs, p, n, []) then fs[q].(stamp := Recent)
                      else fs[q])
  }

  /**
   Every run that completes has put every node that survives in place, with its bytes, its
   four-digit mode and its times, over what was there before; and nothing else has changed,
   except the time of the directory the tree is put into, if its top is new there.
   */
  lemma CompleteMerges(s: Setup, fs: FileSystem, d: Path, n: Node, sourceFirst: System -> bool, q: Path)
    requires Legal(n) && Distinct(n) && Directory(fs, d)
    ensures var z := RunWith(s, Initial(fs, d, [n]), sourceFirst);
            Complete(z) ==> Merged(s, fs, d + [n.name], n, z.fs, q)
  {
    var p := d + [n.name];
    EveryRun(s, fs, d, [n], sourceFirst);
    OneNode(s, fs, d, n);
    TransferImage(s, fs, d, n);
    if p <= q {
      var r := q[|p|..];
      assert p + r == q;
      ImageAt(s, fs, d, n, r);
    } else if q in Image(s, fs, d, n) {
      ImageBelow(s, fs, d, n, q);
    }
    assert p + [] == p;
    if p == q + [n.name] { assert q == p[..|p| - 1] == d; }
  }

  /** The side that is not remote meets no failure. */
  ghost predicate LocalFine(s: Setup) {
    forall p :: (if s.sinkRemote then s.sourceFault(p) else s.sinkFault(p)).Fine?
  }

  /** Where the tree's nodes are there already, they are files and directories as in the tree. */
  ghost predicate Compatible(fs: FileSystem, p: Path, n: Node) {
    forall r :: At(n, r).Some? && p + r in fs ==> fs[p + r].DirEntry? == At(n, r).value.Dir?
  }

  /**
   In every run in which only the remote side fails, both sides finish in step: each failure
   costs the node it strikes and what is below, and everything else arrives.
   */
  lemma RemoteFailures(s: Setup, fs: FileSystem, d: Path, n: Node, sourceFirst: System -> bool, q: Path)
    requires LocalFine(s) && Legal(n) && Distinct(n) && Directory(fs, d)
    requires s.sinkRemote || Compatible(fs, d + [n.name], n)
    ensures var z := RunWith(s, Initial(fs, d, [n]), sourceFirst);
            Complete(z) && Merged(s, fs, d + [n.name], n, z.fs, q)
  {
    var p := d + [n.name];
    forall r ensures !Stuck(s, fs, p, n, r) {
      assert (if s.sinkRemote then s.sourceFault(p + r) else s.sinkFault(p + r)).Fine?;
    }
    CompletesIff(s, fs, d, n, sourceFirst);
    CompleteMerges(s, fs, d, n, sourceFirst, q);
  }

  const NO_FAULT: Path -> Fault := p => Fine

  /** Without failures the tree is rebuilt exactly, whichever side is remote. */
  lemma Rebuilt(sinkRemote: bool, fs: FileSystem, d: Path, n: Node, sourceFirst: System -> bool, r: Path)
    requires Legal(n) && Distinct(n) && Directory(fs, d) && Compatible(fs, d + [n.name], n)
    ensures var s, p := Setup(sinkRemote, NO_FAULT, NO_FAULT), d + [n.name];
            var z := RunWith(s, Initial(fs, d, [n]), sourceFirst);
            && Complete(z)
            && (At(n, r).Some? ==>
                  p + r in z.fs && z.fs[p + r] ==
                  match At(n, r).value
                  case File(name, mode, mtime, atime, data) => FileEntry(mode % MODE_MASK, data, Exactly(mtime, atime))
                  case Dir(name, mode, mtime, atime, kids) => DirEntry(mode % MODE_MASK, Exactly(mtime, atime)))
            && (At(n, r).None? ==> (p + r in z.fs <==> p + r in fs) && (p + r in fs ==> z.fs[p + r] == fs[p + r]))
  {
    var s, p := Setup(sinkRemote, NO_FAULT, NO_FAULT), d + [n.name];
    RemoteFailures(s, fs, d, n, sourceFirst, p + r);
    assert (p + r)[|p|..] == r && p <= p + r;
    if At(n, r).Some? { AllSurvive(s, fs, p, n, r); }
  }

  lemma {:induction false} AtPrefix(n: Node, r: Path, i: nat)
    requires At(n, r).Some? && i < |r|
    ensures At(n, r[..i]).Some? && At(n, r[..i]).value.Dir?
    decreases |r|
  {
    if i > 0 {
      var k := KidNamed(n.kids, r[0]).value;
      assert r[..i][1..] == r[1..][..i - 1];
      AtPrefix(k, r[1..], i - 1);
    }
  }

  lemma AllSurvive(s: Setup, fs: FileSystem, p: Path, n: Node, r: Path)
    requires s.sourceFault == NO_FAULT && s.sinkFault == NO_FAULT && Compatible(fs, p, n) && At(n, r).Some?
    ensures Survives(s, fs, p, n, r)
  {
    forall i | 0 <= i < |r| ensures !Lost(s, fs, p + r[..i], true) {
      AtPrefix(n, r, i);
    }
  }

  /** A failure the local side cannot report leaves both processes waiting for ever. */
  lemma LocalFailureDeadlocks(s: Setup, fs: FileSystem, d: Path, n: Node, sourceFirst: System -> bool)
    requires Legal(n) && Directory(fs, d) && !s.sinkRemote && !s.sourceFault(d + [n.name]).Refused?
    requires d + [n.name] !in fs && s.sinkFault(d + [n.name]).Refused?
    ensures var z := RunWith(s, Initial(fs, d, [n]), sourceFirst);
            !Complete(z) && SourceStep(s, z).None? && SinkStep(s, z).None?
  {
    EveryRun(s, fs, d, [n], sourceFirst);
  }
}
