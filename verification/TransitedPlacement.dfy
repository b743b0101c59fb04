/**
 Where `add_to_transited` puts the new realm and how it spells it, in terms of the fields of the
 old list and the names they stand for; what its length checks come to; and instances.
 */
module TransitedPlacement {
  import opened Sequences
  import opened Transited
  import opened TransitedMeaning

  /** Name `inner` is longer than `outer` and ends with it or, X.500 style, begins with it. */
  predicate Under(outer: string, inner: string) {
    && |outer| < |inner|
    && if First(inner) == '/' then First(outer) == '/' && inner[..|outer|] == outer
       else First(outer) != '/' && inner[|inner| - |outer|..] == outer
  }

  /** What is left of `inner` without `outer`. */
  function Less(inner: string, outer: string): string
    requires Under(outer, inner)
  {
    if First(inner) == '/' then inner[|outer|..] else inner[..|inner| - |outer|]
  }

  /** The new realm goes right after the i-th name: it lies under it, and the next field is no relative one. */
  predicate AfterAt(fs: seq<string>, es: seq<string>, i: nat, realm: string)
    requires i < |fs| == |es|
  {
    && Under(es[i], realm)
    && (i + 1 == |fs| || (fs[i + 1] != "" ==> fs[i + 1][|fs[i + 1]| - 1] != '.' && fs[i + 1][0] != '/'))
  }

  /** The i-th name decides where the new realm goes. */
  predicate Decides(fs: seq<string>, es: seq<string>, i: nat, realm: string)
    requires i < |fs| == |es|
  {
    es[i] == realm || AfterAt(fs, es, i, realm) || Under(realm, es[i])
  }

  ghost predicate DecidesFirst(fs: seq<string>, es: seq<string>, i: nat, realm: string)
    requires |fs| == |es|
  {
    && i <= |fs|
    && (forall j :: 0 <= j < i ==> !Decides(fs, es, j, realm))
    && (i < |fs| ==> Decides(fs, es, i, realm))
  }

  /** The new realm, written after the name `before`. */
  function Spelling(before: string, realm: string): string {
    if Under(before, realm) then Less(realm, before)
    else if First(realm) == '/' && before != "" then " " + realm
    else realm
  }

  /** The new list, when the i-th name decides, or none does and i is the number of names. */
  function Placed(prev: string, fs: seq<string>, es: seq<string>, i: nat, realm: string, start: bool): seq<string>
    requires i <= |fs| == |es| && (i < |fs| ==> Decides(fs, es, i, realm))
  {
    if i == |fs| then fs + [if First(realm) == '/' && !(start && fs == []) then " " + realm else realm]
    else if es[i] == realm then fs
    else if AfterAt(fs, es, i, realm) then fs[..i + 1] + [Less(realm, es[i])] + fs[i + 1..]
    else
      fs[..i] + [Spelling(if i == 0 then prev else es[i - 1], realm), Less(es[i], realm)] + fs[i + 1..]
  }

  lemma SubrealmIsUnder(r1: string, r2: string)
    ensures Subrealm(r1, r2) != 0 <==> Under(r1, r2)
    ensures Under(r1, r2) ==> Piece(r1, r2) == Less(r2, r1)
  {
  }

  lemma {:induction false} RewritePlaced(prev: string, fs: seq<string>, realm: string, start: bool, i: nat)
    requires DecidesFirst(fs, ExpandAll(prev, fs), i, realm)
    ensures Rewrite(prev, fs, realm, false, start) == Placed(prev, fs, ExpandAll(prev, fs), i, realm, start)
    decreases |fs|
  {
    if fs != [] {
      var es := ExpandAll(prev, fs);
      var exp, rest := es[0], fs[1..];
      assert es[1..] == ExpandAll(exp, rest) && fs == [fs[0]] + rest;
      SubrealmIsUnder(exp, realm);
      SubrealmIsUnder(realm, exp);
      SubrealmIsUnder(prev, realm);
      RewriteAdded(exp, rest, realm, false);
      assert AfterAt(fs, es, 0, realm) <==> GoesAfter(exp, rest, realm);
      if i > 0 {
        assert !Decides(fs, es, 0, realm);
        DecidesLater(fs, es, i, realm);
        RewritePlaced(exp, rest, realm, false, i - 1);
        PlacedLater(prev, fs, es, i, realm, start);
      } else {
        PlacedNow(prev, fs, realm, start);
      }
    }
  }

  lemma PlacedNow(prev: string, fs: seq<string>, realm: string, start: bool)
    requires fs != [] && Decides(fs, ExpandAll(prev, fs), 0, realm)
    ensures Rewrite(prev, fs, realm, false, start) == Placed(prev, fs, ExpandAll(prev, fs), 0, realm, start)
  {
    var exp, rest := ExpandField(prev, fs[0]), fs[1..];
    SubrealmIsUnder(exp, realm);
    SubrealmIsUnder(realm, exp);
    SubrealmIsUnder(prev, realm);
    RewriteAdded(exp, rest, realm, false);
    assert AfterAt(fs, ExpandAll(prev, fs), 0, realm) <==> GoesAfter(exp, rest, realm);
    assert fs[..0] == [] && fs[..1] == [fs[0]] && [fs[0]] + rest == fs;
    FrontParts(fs[0], if GoesAfter(exp, rest, realm) then Piece(exp, realm) else "", rest);
  }

  lemma FrontParts(f: string, g: string, rest: seq<string>)
    ensures [f] + [g] + rest == [f, g] + rest && forall h :: [] + [h, g] + rest == [h, g] + rest
  {
    forall h ensures [] + [h, g] + rest == [h, g] + rest {
      assert [] + [h, g] == [h, g];
    }
  }

  lemma DecidesLater(fs: seq<string>, es: seq<string>, i: nat, realm: string)
    requires fs != [] && |fs| == |es| && i > 0 && DecidesFirst(fs, es, i, realm)
    ensures DecidesFirst(fs[1..], es[1..], i - 1, realm)
  {
    forall j | 0 <= j < |fs| - 1
      ensures Decides(fs[1..], es[1..], j, realm) <==> Decides(fs, es, j + 1, realm)
    {
      assert fs[1..][j] == fs[j + 1] && es[1..][j] == es[j + 1];
    }
    forall j | 0 <= j < i - 1 ensures !Decides(fs[1..], es[1..], j, realm) {
      assert !Decides(fs, es, j + 1, realm);
    }
  }

  lemma PlacedLater(prev: string, fs: seq<string>, es: seq<string>, i: nat, realm: string, start: bool)
    requires fs != [] && |fs| == |es| && i > 0 && DecidesFirst(fs, es, i, realm)
    requires DecidesFirst(fs[1..], es[1..], i - 1, realm)
    ensures Placed(prev, fs, es, i, realm, start) ==
            [fs[0]] + Placed(es[0], fs[1..], es[1..], i - 1, realm, false)
  {
    var rest := fs[1..];
    Dropped(fs, i);
    if i < |fs| {
      assert AfterAt(rest, es[1..], i - 1, realm) <==> AfterAt(fs, es, i, realm);
      if es[i] != realm {
        var mid := if AfterAt(fs, es, i, realm) then [Less(realm, es[i])]
                   else [Spelling(es[i - 1], realm), Less(es[i], realm)];
        Regroup([fs[0]], rest[..i] + mid, rest[i..]);
        Regroup([fs[0]], rest[..i], mid);
        Regroup([fs[0]], rest[..i - 1] + mid, rest[i..]);
        Regroup([fs[0]], rest[..i - 1], mid);
      }
    } else {
      Regroup([fs[0]], rest, [if First(realm) == '/' then " " + realm else realm]);
    }
  }

  lemma Dropped<T>(fs: seq<T>, i: nat)
    requires 0 < i <= |fs|
    ensures fs == [fs[0]] + fs[1..] && fs[..i] == [fs[0]] + fs[1..][..i - 1]
    ensures i < |fs| ==> fs[..i + 1] == [fs[0]] + fs[1..][..i] && fs[i + 1..] == fs[1..][i..]
  {
  }

  /**
   For every old field and realm that is neither the client's nor the server's: the first name
   that decides says where the new realm goes, and both it and what follows it are written
   relative to their neighbours.
   */
  lemma AddPlaces(otrans: string, realm: string, client: string, server: string, i: nat)
    requires realm != client && realm != server
    requires DecidesFirst(Fields(otrans), Expand(otrans), i, realm)
    ensures AddSpec(otrans, realm, client, server) ==
            Join(Placed("", Fields(otrans), Expand(otrans), i, realm, true))
  {
    RewritePlaced("", Fields(otrans), realm, true, i);
  }

  /** There is always such a first name, or none. */
  lemma {:induction false} SomeDecides(fs: seq<string>, es: seq<string>, realm: string, k: nat) returns (i: nat)
    requires k <= |fs| == |es| && forall j :: 0 <= j < k ==> !Decides(fs, es, j, realm)
    ensures DecidesFirst(fs, es, i, realm)
    decreases |fs| - k
  {
    if k == |fs| || Decides(fs, es, k, realm) {
      i := k;
    } else {
      i := SomeDecides(fs, es, realm, k + 1);
    }
  }

  /** The client's and the server's realms are never added. */
  lemma AddImplicit(otrans: string, realm: string, client: string, server: string)
    requires realm == client || realm == server
    ensures AddSpec(otrans, realm, client, server) == Join(Fields(otrans))
  {
    RewriteAdded("", Fields(otrans), realm, true);
  }

  // ----- The names, in order -----

  /** The cuts made when the i-th name decides fall between labels. */
  predicate CleanCut(fs: seq<string>, es: seq<string>, i: nat, realm: string)
    requires i <= |fs| == |es| && (i < |fs| ==> Decides(fs, es, i, realm))
  {
    i == |fs| || es[i] == realm ||
    (if AfterAt(fs, es, i, realm) then Between(es[i], realm)
     else Between(realm, es[i]) && (i > 0 && Under(es[i - 1], realm) ==> Between(es[i - 1], realm)))
  }

  /** The end of `outer` within `inner` is the end of a label. */
  predicate Between(outer: string, inner: string)
    requires Under(outer, inner)
  {
    outer == "" || (if First(inner) == '/' then inner[|outer|] == '/' else inner[|inner| - |outer| - 1] == '.')
  }

  lemma {:induction false} ExpandConcat(prev: string, a: seq<string>, b: seq<string>)
    ensures var es := ExpandAll(prev, a);
            ExpandAll(prev, a + b) == es + ExpandAll(if es == [] then prev else es[|es| - 1], b)
    decreases |a|
  {
    if a == [] {
      assert a + b == b;
    } else {
      assert (a + b)[1..] == a[1..] + b;
      var e := ExpandField(prev, a[0]);
      ExpandConcat(e, a[1..], b);
      var es := ExpandAll(e, a[1..]);
      Regroup([e], es, ExpandAll(if es == [] then e else es[|es| - 1], b));
    }
  }

  lemma ExpandParts(prev: string, fs: seq<string>, i: nat)
    requires i <= |fs|
    ensures var es := ExpandAll(prev, fs);
            ExpandAll(prev, fs[..i]) == es[..i] && ExpandAll(if i == 0 then prev else es[i - 1], fs[i..]) == es[i..]
  {
    assert fs == fs[..i] + fs[i..];
    ExpandConcat(prev, fs[..i], fs[i..]);
  }

  lemma {:induction false} LegalNames(prev: string, fs: seq<string>, i: nat)
    requires WellFormedFrom(prev, fs) && i < |fs|
    ensures LegalRealm(ExpandAll(prev, fs)[i])
    decreases |fs|
  {
    if i > 0 { LegalNames(ExpandField(prev, fs[0]), fs[1..], i - 1); }
  }

  /** The names of the list after the addition, when the i-th name decides. */
  function Names(fs: seq<string>, es: seq<string>, i: nat, realm: string): seq<string>
    requires i <= |fs| == |es|
  {
    if i < |fs| && es[i] == realm then es
    else
      var k := if i < |fs| && AfterAt(fs, es, i, realm) then i + 1 else i;
      es[..k] + [realm] + es[k..]
  }

  /** The names a well-formed list stands for after the addition: the new one at the place it was put. */
  lemma AddNames(otrans: string, realm: string, client: string, server: string, i: nat)
    requires WellFormed(otrans) && LegalRealm(realm) && realm != client && realm != server
    requires DecidesFirst(Fields(otrans), Expand(otrans), i, realm)
    requires CleanCut(Fields(otrans), Expand(otrans), i, realm)
    ensures Expand(AddSpec(otrans, realm, client, server)) == Names(Fields(otrans), Expand(otrans), i, realm)
  {
    AddFields(otrans, realm, client, server);
    RewritePlaced("", Fields(otrans), realm, true, i);
    PlacedNames(Fields(otrans), realm, i);
  }

  lemma PlacedNames(fs: seq<string>, realm: string, i: nat)
    requires WellFormedFrom("", fs) && (forall f :: f in fs ==> f != "") && LegalRealm(realm)
    requires DecidesFirst(fs, ExpandAll("", fs), i, realm) && CleanCut(fs, ExpandAll("", fs), i, realm)
    ensures var es := ExpandAll("", fs);
            ExpandAll("", Placed("", fs, es, i, realm, true)) == Names(fs, es, i, realm)
  {
    var es := ExpandAll("", fs);
    if i == |fs| {
      NamesAtEnd(fs, realm);
    } else if es[i] != realm {
      if AfterAt(fs, es, i, realm) {
        NamesAfter(fs, i, realm);
      } else {
        var before := if i == 0 then "" else es[i - 1];
        LegalNames("", fs, i);
        NamesBefore(fs, i, realm, before);
        Around(fs, i, [Spelling(before, realm), Less(es[i], realm)], realm);
      }
    }
  }

  /** A list whose first part stands for `ea`, and whose second, read after it, for `em`. */
  lemma TwoParts(a: seq<string>, ea: seq<string>, mid: seq<string>, em: seq<string>)
    requires ea == ExpandAll("", a) && em == ExpandAll(if ea == [] then "" else ea[|ea| - 1], mid)
    ensures ExpandAll("", a + mid) == ea + em
  {
    ExpandConcat("", a, mid);
  }

  lemma Slices<T>(es: seq<T>, i: nat)
    requires i <= |es|
    ensures es[..|es|] == es && es[|es|..] == [] && |es[..i]| == i
    ensures i < |es| ==> es[i..] == [es[i]] + es[i + 1..]
    ensures i > 0 ==> es[..i][i - 1] == es[i - 1]
  {
  }

  /** A name in full, with a space in front if it is in X.500 style and does not come first. */
  lemma FullName(prev: string, realm: string, start: bool)
    requires LegalRealm(realm) && (start ==> prev == "")
    ensures ExpandField(prev, if First(realm) == '/' && !start then " " + realm else realm) == realm
  {
  }

  lemma NamesAtEnd(fs: seq<string>, realm: string)
    requires LegalRealm(realm)
    ensures var es := ExpandAll("", fs);
            ExpandAll("", fs + [if First(realm) == '/' && fs != [] then " " + realm else realm]) ==
            es[..|fs|] + [realm] + es[|fs|..]
  {
    var f := if First(realm) == '/' && fs != [] then " " + realm else realm;
    var es := ExpandAll("", fs);
    var prev := if es == [] then "" else es[|es| - 1];
    FullName(prev, realm, fs == []);
    OneName(prev, f);
    TwoParts(fs, es, [f], [realm]);
    Slices(es, 0);
    Regroup(es, [realm], []);
    assert [realm] + [] == [realm];
  }

  lemma OneName(prev: string, f: string)
    ensures ExpandAll(prev, [f]) == [ExpandField(prev, f)]
  {
    assert [f][1..] == [];
  }

  lemma OneMore(prev: string, f: string, rest: seq<string>)
    ensures ExpandAll(prev, [f] + rest) == [ExpandField(prev, f)] + ExpandAll(ExpandField(prev, f), rest)
  {
    assert ([f] + rest)[1..] == rest;
  }

  lemma NameAndRest(before: string, realm: string, rest: seq<string>)
    requires LegalRealm(realm) && Under(before, realm) && Between(before, realm) && Uncompressed(Next(rest))
    ensures ExpandAll(before, [Less(realm, before)] + rest) == [realm] + ExpandAll(before, rest)
  {
    SubrealmIsUnder(before, realm);
    PieceExpands(before, realm);
    OneMore(before, Less(realm, before), rest);
    UncompressedMeans(before, realm, rest);
  }

  lemma NamesAfter(fs: seq<string>, i: nat, realm: string)
    requires LegalRealm(realm) && i < |fs| && (forall f :: f in fs ==> f != "")
    requires AfterAt(fs, ExpandAll("", fs), i, realm) && Between(ExpandAll("", fs)[i], realm)
    ensures var es := ExpandAll("", fs);
            ExpandAll("", fs[..i + 1] + [Less(realm, es[i])] + fs[i + 1..]) == es[..i + 1] + [realm] + es[i + 1..]
  {
    var es := ExpandAll("", fs);
    var f, rest := Less(realm, es[i]), fs[i + 1..];
    if rest != [] { assert rest[0] == fs[i + 1] && fs[i + 1] in fs; }
    NameAndRest(es[i], realm, rest);
    ExpandParts("", fs, i + 1);
    Regroup(fs[..i + 1], [f], rest);
    ExpandConcat("", fs[..i + 1], [f] + rest);
    Regroup(es[..i + 1], [realm], es[i + 1..]);
  }

  lemma NamesBefore(fs: seq<string>, i: nat, realm: string, before: string)
    requires LegalRealm(realm) && i < |fs| && LegalRealm(ExpandAll("", fs)[i])
    requires Under(realm, ExpandAll("", fs)[i]) && Between(realm, ExpandAll("", fs)[i])
    requires before != "" && Under(before, realm) ==> Between(before, realm)
    ensures var es := ExpandAll("", fs);
            ExpandAll(before, [Spelling(before, realm), Less(es[i], realm)] + fs[i + 1..]) == [realm] + es[i..]
  {
    var es := ExpandAll("", fs);
    TwoNames(before, realm, es[i], fs[i + 1..]);
    ExpandParts("", fs, i + 1);
    Slices(es, i);
  }

  lemma Around(fs: seq<string>, i: nat, mid: seq<string>, realm: string)
    requires i < |fs|
    requires var es := ExpandAll("", fs);
             ExpandAll(if i == 0 then "" else es[i - 1], mid + fs[i + 1..]) == [realm] + es[i..]
    ensures var es := ExpandAll("", fs); ExpandAll("", fs[..i] + mid + fs[i + 1..]) == es[..i] + [realm] + es[i..]
  {
    var es := ExpandAll("", fs);
    ExpandParts("", fs, i);
    Slices(es, i);
    TwoParts(fs[..i], es[..i], mid + fs[i + 1..], [realm] + es[i..]);
    Combined(fs[..i], mid, fs[i + 1..], es[..i], [realm], es[i..]);
  }

  lemma Combined(a: seq<string>, b: seq<string>, c: seq<string>, x: seq<string>, y: seq<string>, z: seq<string>)
    requires ExpandAll("", a + (b + c)) == x + (y + z)
    ensures ExpandAll("", a + b + c) == x + y + z
  {
    Regroup(a, b, c);
    Regroup(x, y, z);
  }

  lemma TwoNames(before: string, realm: string, exp: string, rest: seq<string>)
    requires LegalRealm(realm) && LegalRealm(exp) && Under(realm, exp) && Between(realm, exp)
    requires Under(before, realm) && before != "" ==> Between(before, realm)
    ensures ExpandAll(before, [Spelling(before, realm), Less(exp, realm)] + rest) ==
            [realm] + ([exp] + ExpandAll(exp, rest))
  {
    var f, g := Spelling(before, realm), Less(exp, realm);
    SubrealmIsUnder(before, realm);
    SubrealmIsUnder(realm, exp);
    PieceExpands(realm, exp);
    HeadExpands(before, realm);
    assert [f, g] + rest == [f] + ([g] + rest);
    OneMore(before, f, [g] + rest);
    OneMore(realm, g, rest);
  }

  // ----- What fits -----

  /** The i-th field is written relative to the name before it. */
  predicate Relative(prev: string, fs: seq<string>, es: seq<string>, i: nat)
    requires i < |fs| == |es|
  {
    var f, before := fs[i], if i == 0 then prev else es[i - 1];
    && First(f) != ' '
    && ((First(f) == '/' && First(before) == '/') || (f != "" && f[|f| - 1] == '.'))
  }

  predicate FitsAt(prev: string, fs: seq<string>, es: seq<string>, i: nat)
    requires i < |fs| == |es|
  {
    |fs[i]| <= 499 && (Relative(prev, fs, es, i) ==> |es[i]| <= 498)
  }

  lemma FitsLater(prev: string, fs: seq<string>, es: seq<string>, i: nat)
    requires 1 <= i < |fs| && es == ExpandAll(prev, fs)
    ensures FitsAt(prev, fs, es, i) <==> FitsAt(es[0], fs[1..], es[1..], i - 1)
  {
    assert fs[1..][i - 1] == fs[i] && es[1..][i - 1] == es[i];
  }

  /** The fields pass the length checks exactly if each is short, and each name put together from two parts is. */
  lemma {:induction false} RoomyMeans(prev: string, fs: seq<string>, es: seq<string>)
    requires es == ExpandAll(prev, fs)
    ensures Roomy(prev, fs) <==> forall i :: 0 <= i < |fs| ==> FitsAt(prev, fs, es, i)
    decreases |fs|
  {
    if fs != [] {
      var e := ExpandField(prev, fs[0]);
      assert es == [e] + ExpandAll(e, fs[1..]);
      RoomyMeans(e, fs[1..], es[1..]);
      assert FitsAt(prev, fs, es, 0) <==> |fs[0]| < MAX_REALM_LN && Expandable(prev, fs[0]);
      if Roomy(e, fs[1..]) {
        forall i | 1 <= i < |fs| ensures FitsAt(prev, fs, es, i) {
          FitsLater(prev, fs, es, i);
        }
      } else {
        var i :| 0 <= i < |fs[1..]| && !FitsAt(e, fs[1..], es[1..], i);
        FitsLater(prev, fs, es, i + 1);
      }
    }
  }

  // ----- Instances -----

  lemma Instance(fs: seq<string>, realm: string, client: string, server: string, i: nat)
    requires AllPlain(fs) && realm != client && realm != server
    requires DecidesFirst(fs, ExpandAll("", fs), i, realm)
    ensures AddSpec(Join(fs), realm, client, server) == Join(Placed("", fs, ExpandAll("", fs), i, realm, true))
  {
    FieldsOfJoin(fs);
    AddPlaces(Join(fs), realm, client, server, i);
  }

  lemma Expand2(a: string, b: string)
    ensures ExpandAll("", [a, b]) == [ExpandField("", a), ExpandField(ExpandField("", a), b)]
  {
    OneMore("", a, [b]);
    OneName(ExpandField("", a), b);
    assert [a] + [b] == [a, b];
  }

  /** A realm goes right after the one it lies under. */
  lemma AfterParent(client: string, server: string)
    requires "MIT.EDU" != client && "MIT.EDU" != server
    ensures AddSpec(Join(["EDU", "COM"]), "MIT.EDU", client, server) == Join(["EDU", "MIT.", "COM"])
  {
    var fs := ["EDU", "COM"];
    assert Plain("EDU") && Plain("COM");
    Expand2("EDU", "COM");
    assert Less("MIT.EDU", "EDU") == "MIT.";
    Instance(fs, "MIT.EDU", client, server, 0);
    assert fs[..1] + ["MIT."] + fs[1..] == ["EDU", "MIT.", "COM"];
  }

  /** A realm goes in front of the only one there is, if that lies under it. */
  lemma BeforeChild(child: string, realm: string, client: string, server: string)
    requires LegalRealm(child) && realm != client && realm != server && realm != "" && Under(realm, child)
    ensures AddSpec(child, realm, client, server) == realm + "," + Less(child, realm)
  {
    assert Plain(child);
    OneName("", child);
    SpelledFirst(realm);
    Instance([child], realm, client, server, 0);
    assert [child][..0] + [realm, Less(child, realm)] + [child][1..] == [realm, Less(child, realm)];
  }

  lemma SpelledFirst(realm: string)
    ensures Spelling("", realm) == realm
  {
  }

  lemma Expand3(a: string, b: string, c: string)
    ensures var ea := ExpandField("", a);
            var eb := ExpandField(ea, b);
            ExpandAll("", [a, b, c]) == [ea, eb, ExpandField(eb, c)]
  {
    var ea := ExpandField("", a);
    OneMore("", a, [b, c]);
    OneMore(ea, b, [c]);
    OneName(ExpandField(ea, b), c);
    assert [a] + [b, c] == [a, b, c] && [b] + [c] == [b, c];
  }

  /** As in section 3.3.3.1 of RFC 1510: names relative to the one before them, in both styles. */
  lemma CompressedLists()
    ensures ExpandAll("", ["EDU", "MIT.", "ATHENA."]) == ["EDU", "MIT.EDU", "ATHENA.MIT.EDU"]
    ensures ExpandAll("", ["/COM", "/HP", " /DEC"]) == ["/COM", "/COM/HP", "/DEC"]
    ensures ExpandAll("", ["EDU", "/COM"]) == ["EDU", "/COM"]
  {
    Expand3("EDU", "MIT.", "ATHENA.");
    assert ExpandField("EDU", "MIT.") == "MIT.EDU" by {
      assert "MIT." + "EDU" == "MIT.EDU";
    }
    assert ExpandField("MIT.EDU", "ATHENA.") == "ATHENA.MIT.EDU" by {
      assert "ATHENA." + "MIT.EDU" == "ATHENA.MIT.EDU";
    }
    Expand3("/COM", "/HP", " /DEC");
    assert ExpandField("/COM", "/HP") == "/COM/HP" by {
      assert "/COM" + "/HP" == "/COM/HP";
    }
    assert ExpandField("/COM/HP", " /DEC") == "/DEC" by {
      assert " /DEC"[1..] == "/DEC";
    }
    Expand2("EDU", "/COM");
  }
}
