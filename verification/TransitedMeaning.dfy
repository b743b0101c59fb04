/**
 What `add_to_transited` does to the meaning, the form and the length of a transited field.
 */
module TransitedMeaning {
  import opened Options
  import opened Transited

  // ----- Well-formed fields -----

  /** Nothing in the field is read as a separator, a quote or the end of the string. */
  predicate Plain(f: string) {
    f != "" && ',' !in f && '\\' !in f && '\0' !in f
  }

  /** A compressed field follows a realm of its own style. */
  predicate Styled(prev: string, f: string) {
    if First(f) == ' ' then true
    else if First(f) == '/' then prev == "" || First(prev) == '/'
    else Last(f) == '.' ==> prev != "" && First(prev) != '/'
  }

  predicate WellFormedFrom(prev: string, fs: seq<string>)
    decreases |fs|
  {
    fs == [] ||
    (&& Plain(fs[0]) && Styled(prev, fs[0])
     && LegalRealm(ExpandField(prev, fs[0]))
     && WellFormedFrom(ExpandField(prev, fs[0]), fs[1..]))
  }

  /** Compressed form: no null or quoted fields, every name in it legal. */
  predicate WellFormed(s: string) {
    Join(Fields(s)) == s && WellFormedFrom("", Fields(s))
  }

  // ----- Reading back what was written -----

  lemma {:induction false} ReadBack(f: string, rest: string)
    requires ',' !in f && '\\' !in f
    ensures ReadSpec(f + "," + rest) == (f, rest) && ReadSpec(f) == (f, "")
  {
    var s := f + "," + rest;
    if f == "" {
      assert s[1..] == rest;
    } else {
      assert s[1..] == f[1..] + "," + rest;
      assert f == [f[0]] + f[1..];
      ReadBack(f[1..], rest);
    }
  }

  /** Splitting undoes joining. */
  lemma {:induction false} FieldsOfJoin(fs: seq<string>)
    requires AllPlain(fs)
    ensures Fields(Join(fs)) == fs
  {
    if fs != [] {
      assert Plain(fs[0]);
      ReadBack(fs[0], Join(fs[1..]));
      FieldsOfJoin(fs[1..]);
    }
  }

  /** Reading stops at a null subfield: the names after it are lost. */
  lemma {:induction false} NullSubfield(fs: seq<string>, rest: string)
    requires AllPlain(fs)
    ensures Fields(if fs == [] then "," + rest else Join(fs) + ",," + rest) == fs
    decreases |fs|
  {
    if fs == [] {
      ReadBack("", rest);
      assert "" + "," + rest == "," + rest;
    } else {
      var f, tail := fs[0], if |fs| == 1 then "," + rest else Join(fs[1..]) + ",," + rest;
      assert Plain(f);
      NullSubfield(fs[1..], rest);
      ReadBack(f, tail);
      assert Join(fs) + ",," + rest == f + "," + tail;
    }
  }

  /** A backslash is dropped, and does not quote the character after it. */
  lemma {:induction false} BackslashDropped(a: string, b: string)
    ensures Fields(a + "\\" + b) == Fields(a + b)
    decreases |a|
  {
    var a' := ReadBackslash(a, b);
    if a'.Some? { BackslashDropped(a'.value, b); }
  }

  /** Reading a field takes the backslash with it, or leaves it in the rest. */
  lemma {:induction false} ReadBackslash(a: string, b: string) returns (a': Option<string>)
    ensures var (f, rest) := ReadSpec(a + b);
            && ReadSpec(a + "\\" + b).0 == f
            && if a'.None? then ReadSpec(a + "\\" + b).1 == rest
               else |a'.value| < |a| && rest == a'.value + b && ReadSpec(a + "\\" + b).1 == a'.value + "\\" + b
    decreases |a|
  {
    if a == "" {
      assert (a + "\\" + b)[1..] == b && a + b == b;
      a' := None;
    } else {
      assert (a + "\\" + b)[1..] == a[1..] + "\\" + b && (a + b)[1..] == a[1..] + b;
      if a[0] == ',' {
        a' := Some(a[1..]);
      } else {
        a' := ReadBackslash(a[1..], b);
      }
    }
  }

  // ----- One compression step -----

  /** Writing r2 relative to r1 can be undone exactly when the cut falls between labels. */
  lemma PieceExpands(r1: string, r2: string)
    requires LegalRealm(r2) && Subrealm(r1, r2) != 0
    ensures ExpandField(r1, Piece(r1, r2)) == r2 <==> OnLabel(r1, r2)
  {
    var p := Piece(r1, r2);
    if Subrealm(r1, r2) > 0 {
      assert p[0] == r2[0] && p[|p| - 1] == r2[|r2| - |r1| - 1];
    } else {
      assert p[0] == r2[|r1|] && p[|p| - 1] == r2[|r2| - 1];
    }
  }

  lemma PiecePlain(r1: string, r2: string)
    requires LegalRealm(r2) && Subrealm(r1, r2) != 0 && OnLabel(r1, r2)
    ensures Plain(Piece(r1, r2)) && Styled(r1, Piece(r1, r2))
  {
    var p := Piece(r1, r2);
    if Subrealm(r1, r2) > 0 {
      assert p[0] == r2[0];
      if r1 == "" { assert p == r2; }
    } else {
      assert p[0] == r2[|r1|];
    }
  }

  lemma HeadExpands(prev: string, realm: string)
    requires LegalRealm(realm)
    requires Subrealm(prev, realm) != 0 ==> OnLabel(prev, realm)
    ensures ExpandField(prev, Head(prev, realm)) == realm
    ensures Plain(Head(prev, realm)) && Styled(prev, Head(prev, realm))
  {
    if Subrealm(prev, realm) != 0 {
      PieceExpands(prev, realm);
      PiecePlain(prev, realm);
    }
  }

  // ----- Where the realm goes -----

  /** The realm is met among the expanded names before a place for it is found. */
  predicate FoundFirst(prev: string, fs: seq<string>, realm: string)
    decreases |fs|
  {
    fs != [] &&
    var exp := ExpandField(prev, fs[0]);
    exp == realm ||
    (!GoesAfter(exp, fs[1..], realm) && !GoesBefore(exp, fs[1..], realm) && FoundFirst(exp, fs[1..], realm))
  }

  /** Every cut made on the way falls between two labels. */
  predicate CutsOnLabels(prev: string, fs: seq<string>, realm: string)
    decreases |fs|
  {
    fs == [] ||
    var exp := ExpandField(prev, fs[0]);
    exp == realm ||
    (if GoesAfter(exp, fs[1..], realm) then OnLabel(exp, realm)
     else if GoesBefore(exp, fs[1..], realm) then
       (Subrealm(prev, realm) != 0 ==> OnLabel(prev, realm)) && OnLabel(realm, exp)
     else CutsOnLabels(exp, fs[1..], realm))
  }

  /** `after` is `before` with one more element at some place, the others kept in order. */
  ghost predicate Inserted<T>(before: seq<T>, after: seq<T>, x: T) {
    exists k :: 0 <= k <= |before| && after == InsertAt(before, k, x)
  }

  function InsertAt<T>(s: seq<T>, k: nat, x: T): seq<T>
    requires k <= |s|
  {
    s[..k] + [x] + s[k..]
  }

  lemma InsertedCons<T>(e: T, before: seq<T>, after: seq<T>, x: T)
    requires e != x
    ensures Inserted([e] + before, [e] + after, x) <==> Inserted(before, after, x)
  {
    if Inserted(before, after, x) {
      var k :| 0 <= k <= |before| && after == InsertAt(before, k, x);
      assert [e] + after == InsertAt([e] + before, k + 1, x);
    }
    if Inserted([e] + before, [e] + after, x) {
      var k :| 0 <= k <= |before| + 1 && [e] + after == InsertAt([e] + before, k, x);
      assert k > 0 by { assert ([e] + after)[0] == e; }
      assert after == ([e] + after)[1..] == InsertAt(before, k - 1, x);
    }
  }

  /** Putting y in front of s inserts x only if y is x. */
  lemma InsertedFront<T>(s: seq<T>, x: T, y: T)
    ensures Inserted(s, [y] + s, x) <==> x == y
  {
    if Inserted(s, [y] + s, x) {
      var k :| 0 <= k <= |s| && [y] + s == InsertAt(s, k, x);
      FrontIs(s, x, y, k);
    }
    if x == y { assert [y] + s == InsertAt(s, 0, x); }
  }

  lemma {:induction false} FrontIs<T>(s: seq<T>, x: T, y: T, k: nat)
    requires k <= |s| && [y] + s == InsertAt(s, k, x)
    ensures x == y
    decreases k
  {
    assert ([y] + s)[0] == y;
    if k > 0 {
      assert InsertAt(s, k, x)[0] == s[0];
      assert ([y] + s)[1..] == InsertAt(s[1..], k - 1, x) by {
        assert InsertAt(s, k, x)[1..] == s[1..k] + [x] + s[k..];
        assert s[1..][..k - 1] == s[1..k] && s[1..][k - 1..] == s[k..];
      }
      assert [s[0]] + s[1..] == s;
      FrontIs(s[1..], x, s[0], k - 1);
    }
  }

  // ----- Meaning -----

  /** A field that is not compressed means the same after any realm. */
  lemma UncompressedMeans(p: string, q: string, fs: seq<string>)
    requires Uncompressed(Next(fs))
    ensures ExpandAll(p, fs) == ExpandAll(q, fs)
  {
  }

  lemma {:induction false} RewriteAdded(prev: string, fs: seq<string>, realm: string, start: bool)
    ensures Rewrite(prev, fs, realm, true, start) == fs
    decreases |fs|
  {
    if fs != [] { RewriteAdded(ExpandField(prev, fs[0]), fs[1..], realm, false); }
  }

  lemma {:induction false} RewriteFound(prev: string, fs: seq<string>, realm: string, start: bool)
    requires FoundFirst(prev, fs, realm)
    ensures Rewrite(prev, fs, realm, false, start) == fs && realm in ExpandAll(prev, fs)
    decreases |fs|
  {
    var exp := ExpandField(prev, fs[0]);
    if exp == realm { RewriteAdded(exp, fs[1..], realm, false); }
    else { RewriteFound(exp, fs[1..], realm, false); }
  }

  /** The new realm comes out exactly once more, the others unchanged and in order, iff the cuts fall on labels. */
  lemma {:induction false} RewriteInserts(prev: string, fs: seq<string>, realm: string, start: bool)
    requires WellFormedFrom(prev, fs) && LegalRealm(realm) && !FoundFirst(prev, fs, realm)
    requires start <==> prev == ""
    ensures Inserted(ExpandAll(prev, fs), ExpandAll(prev, Rewrite(prev, fs, realm, false, start)), realm)
            <==> CutsOnLabels(prev, fs, realm)
    decreases |fs|
  {
    if fs == [] {
      assert ExpandAll(prev, [Tail(start, realm)]) == [realm];
      InsertedFront([], realm, realm);
    } else {
      var exp, rest := ExpandField(prev, fs[0]), fs[1..];
      RewriteAdded(exp, rest, realm, false);
      if GoesAfter(exp, rest, realm) {
        InsertAfter(prev, fs, realm);
      } else if GoesBefore(exp, rest, realm) {
        InsertBefore(prev, fs, realm);
      } else {
        RewriteInserts(exp, rest, realm, false);
        var new' := Rewrite(exp, rest, realm, false, false);
        assert ([fs[0]] + new')[1..] == new';
        InsertedCons(exp, ExpandAll(exp, rest), ExpandAll(exp, new'), realm);
      }
    }
  }

  lemma ExpandPair(prev: string, f: string, g: string, rest: seq<string>)
    ensures var e := ExpandField(prev, f);
            ExpandAll(prev, [f, g] + rest) ==
            [e] + ([ExpandField(e, g)] + ExpandAll(ExpandField(e, g), rest))
  {
    assert ([f, g] + rest)[1..] == [g] + rest && ([g] + rest)[1..] == rest;
  }

  lemma InsertAfter(prev: string, fs: seq<string>, realm: string)
    requires fs != [] && WellFormedFrom(prev, fs) && LegalRealm(realm)
    requires ExpandField(prev, fs[0]) != realm && GoesAfter(ExpandField(prev, fs[0]), fs[1..], realm)
    ensures var exp := ExpandField(prev, fs[0]);
            Inserted(ExpandAll(prev, fs), ExpandAll(prev, [fs[0], Piece(exp, realm)] + fs[1..]), realm)
            <==> OnLabel(exp, realm)
  {
    var exp, rest := ExpandField(prev, fs[0]), fs[1..];
    var e := ExpandField(exp, Piece(exp, realm));
    ExpandPair(prev, fs[0], Piece(exp, realm), rest);
    UncompressedMeans(e, exp, rest);
    InsertedCons(exp, ExpandAll(exp, rest), [e] + ExpandAll(exp, rest), realm);
    InsertedFront(ExpandAll(exp, rest), realm, e);
    PieceExpands(exp, realm);
  }

  lemma InsertBefore(prev: string, fs: seq<string>, realm: string)
    requires fs != [] && WellFormedFrom(prev, fs) && LegalRealm(realm)
    requires var exp := ExpandField(prev, fs[0]); exp != realm && GoesBefore(exp, fs[1..], realm)
    ensures var exp := ExpandField(prev, fs[0]);
            Inserted(ExpandAll(prev, fs), ExpandAll(prev, [Head(prev, realm), Piece(realm, exp)] + fs[1..]), realm)
            <==> (Subrealm(prev, realm) != 0 ==> OnLabel(prev, realm)) && OnLabel(realm, exp)
  {
    var exp, rest := ExpandField(prev, fs[0]), fs[1..];
    var h, p := Head(prev, realm), Piece(realm, exp);
    var e1 := ExpandField(prev, h);
    var e2 := ExpandField(e1, p);
    ExpandPair(prev, h, p, rest);
    BeforeHead(prev, realm);
    InsertedPair(exp, e1, e2, ExpandAll(exp, rest), ExpandAll(e2, rest), realm);
    PieceExpands(realm, exp);
  }

  lemma InsertedPair<T>(exp: T, e1: T, e2: T, t: seq<T>, t': seq<T>, x: T)
    requires exp != x && e1 != exp && (e2 == exp ==> t' == t)
    ensures Inserted([exp] + t, [e1] + ([e2] + t'), x) <==> e1 == x && e2 == exp
  {
    var old', new' := [exp] + t, [e1] + ([e2] + t');
    if e1 == x && e2 == exp {
      assert new' == InsertAt(old', 0, x);
    }
    if Inserted(old', new', x) {
      var k :| 0 <= k <= |old'| && new' == InsertAt(old', k, x);
      assert new'[0] == e1;
      assert k == 0;
      assert new'[1] == e2;
    }
  }

  lemma BeforeHead(prev: string, realm: string)
    requires LegalRealm(realm)
    ensures var e := ExpandField(prev, Head(prev, realm));
            && |e| <= |realm|
            && (e == realm <==> (Subrealm(prev, realm) != 0 ==> OnLabel(prev, realm)))
  {
    if Subrealm(prev, realm) != 0 && !OnLabel(prev, realm) {
      BadCutIsShort(prev, realm);
    } else {
      HeadExpands(prev, realm);
    }
  }

  /** A name cut off a label boundary expands to something no longer than the name itself. */
  lemma BadCutIsShort(r1: string, r2: string)
    requires LegalRealm(r2) && Subrealm(r1, r2) != 0 && !OnLabel(r1, r2)
    ensures |ExpandField(r1, Piece(r1, r2))| < |r2|
  {
    var p := Piece(r1, r2);
    if Subrealm(r1, r2) > 0 {
      assert p[0] == r2[0] && p[|p| - 1] == r2[|r2| - |r1| - 1];
      assert ExpandField(r1, p) == p;
    } else {
      assert p[0] == r2[|r1|] && p[|p| - 1] == r2[|r2| - 1];
      assert ExpandField(r1, p) == if p[0] == ' ' then p[1..] else p;
    }
  }

  // ----- Form -----

  predicate AllPlain(fs: seq<string>) {
    forall f :: f in fs ==> Plain(f)
  }

  lemma PiecesPlain(r1: string, r2: string)
    requires LegalRealm(r2)
    ensures Subrealm(r1, r2) != 0 ==> Plain(Piece(r1, r2))
    ensures Plain(Head(r1, r2))
  {
  }

  lemma {:induction false} RewritePlain(prev: string, fs: seq<string>, realm: string, added: bool, start: bool)
    requires WellFormedFrom(prev, fs) && LegalRealm(realm)
    ensures AllPlain(Rewrite(prev, fs, realm, added, start))
    decreases |fs|
  {
    if fs != [] {
      var exp, rest := ExpandField(prev, fs[0]), fs[1..];
      PiecesPlain(exp, realm);
      PiecesPlain(realm, exp);
      PiecesPlain(prev, realm);
      RewritePlain(exp, rest, realm, true, false);
      RewritePlain(exp, rest, realm, false, false);
    }
  }

  lemma WellFormedPair(prev: string, f: string, g: string, rest: seq<string>)
    requires Plain(f) && Styled(prev, f) && LegalRealm(ExpandField(prev, f))
    requires var e := ExpandField(prev, f);
             && Plain(g) && Styled(e, g) && LegalRealm(ExpandField(e, g))
             && WellFormedFrom(ExpandField(e, g), rest)
    ensures WellFormedFrom(prev, [f, g] + rest)
  {
    assert ([f, g] + rest)[1..] == [g] + rest && ([g] + rest)[1..] == rest;
  }

  lemma WellFormedCons(prev: string, f: string, rest: seq<string>)
    requires Plain(f) && Styled(prev, f) && LegalRealm(ExpandField(prev, f))
    requires WellFormedFrom(ExpandField(prev, f), rest)
    ensures WellFormedFrom(prev, [f] + rest)
  {
    assert ([f] + rest)[1..] == rest;
  }

  lemma WellFormedUncompressed(p: string, q: string, fs: seq<string>)
    requires WellFormedFrom(p, fs) && Uncompressed(Next(fs))
    ensures WellFormedFrom(q, fs)
  {
  }

  /** Compressed form is kept when the cuts fall on labels. */
  lemma {:induction false} RewriteWellFormed(prev: string, fs: seq<string>, realm: string, start: bool)
    requires WellFormedFrom(prev, fs) && LegalRealm(realm) && CutsOnLabels(prev, fs, realm)
    requires start <==> prev == ""
    ensures WellFormedFrom(prev, Rewrite(prev, fs, realm, false, start))
    decreases |fs|
  {
    if fs != [] {
      var f, exp, rest := fs[0], ExpandField(prev, fs[0]), fs[1..];
      RewriteAdded(exp, rest, realm, false);
      if exp == realm {
        WellFormedCons(prev, f, rest);
      } else if GoesAfter(exp, rest, realm) {
        PieceExpands(exp, realm);
        PiecePlain(exp, realm);
        WellFormedUncompressed(exp, realm, rest);
        WellFormedPair(prev, f, Piece(exp, realm), rest);
      } else if GoesBefore(exp, rest, realm) {
        HeadExpands(prev, realm);
        PieceExpands(realm, exp);
        PiecePlain(realm, exp);
        WellFormedPair(prev, Head(prev, realm), Piece(realm, exp), rest);
      } else {
        RewriteWellFormed(exp, rest, realm, false);
        WellFormedCons(prev, f, Rewrite(exp, rest, realm, false, false));
      }
    }
  }

  // ----- Length -----

  /** The characters of the fields, each with one separator. */
  function Size(fs: seq<string>): nat {
    if fs == [] then 0 else |fs[0]| + 1 + Size(fs[1..])
  }

  lemma {:induction false} JoinSize(fs: seq<string>)
    requires fs != []
    ensures |Join(fs)| == Size(fs) - 1
  {
    if |fs| > 1 { JoinSize(fs[1..]); }
  }

  /** Two names that both end (or, X.500 style, begin) a third one are comparable. */
  lemma Comparable(prev: string, realm: string, exp: string)
    requires Subrealm(prev, exp) != 0 && Subrealm(realm, exp) != 0
    ensures prev == realm || Subrealm(prev, realm) != 0 || Subrealm(realm, prev) != 0
  {
    var p, r := |prev|, |realm|;
    if Subrealm(prev, exp) > 0 {
      assert exp[|exp| - p..] == prev && exp[|exp| - r..] == realm;
      if p < r { assert realm[r - p..] == prev; } else { assert prev[p - r..] == realm; }
    } else {
      assert exp[..p] == prev && exp[..r] == realm;
      if p < r { assert realm[..p] == prev; } else { assert prev[..r] == realm; }
    }
  }

  /** A field that ends in a dot, read after a name of the other style. */
  predicate Misplaced(prev: string, f: string) {
    Last(f) == '.' && First(f) != ' ' && (First(f) == '/' <==> First(prev) != '/')
  }

  /**
   By how much the list can outgrow the room for the realm and two characters: the new realm
   is put in front of a misplaced field, whose name, once expanded, holds the whole name before it.
   */
  function Excess(prev: string, fs: seq<string>, realm: string): nat
    decreases |fs|
  {
    if fs == [] then 0
    else
      var exp := ExpandField(prev, fs[0]);
      var room := |realm| + if First(realm) == '/' then 0 else 1;
      if exp == realm || GoesAfter(exp, fs[1..], realm) then 0
      else if GoesBefore(exp, fs[1..], realm) then
        (if Misplaced(prev, fs[0]) && |prev| > room then |prev| - room else 0)
      else Excess(exp, fs[1..], realm)
  }

  /** What is written in place of the current field, if the new realm was not due earlier. */
  lemma BeforeSize(prev: string, f: string, realm: string)
    requires f != "" && (prev == "" || (prev != realm && Subrealm(realm, prev) == 0))
    requires Subrealm(realm, ExpandField(prev, f)) != 0
    ensures var growth := |Head(prev, realm)| + |Piece(realm, ExpandField(prev, f))| + 1 - |f|;
            if Misplaced(prev, f) && prev != "" then growth == |prev| + if First(realm) == '/' then 2 else 1
            else growth <= |realm| + 2
  {
    var exp := ExpandField(prev, f);
    if |exp| > |f| && !Misplaced(prev, f) {
      if exp == prev + f {
        assert exp[..|prev|] == prev;
      } else {
        assert exp[|exp| - |prev|..] == prev;
      }
      assert Subrealm(prev, exp) != 0;
      Comparable(prev, realm, exp);
    }
  }

  lemma SizeCons(f: string, rest: seq<string>)
    ensures Size([f] + rest) == |f| + 1 + Size(rest)
  {
    assert ([f] + rest)[1..] == rest;
  }

  lemma SizePair(f: string, g: string, rest: seq<string>)
    ensures Size([f, g] + rest) == |f| + |g| + 2 + Size(rest)
  {
    assert [f, g] + rest == [f] + ([g] + rest);
    SizeCons(f, [g] + rest);
    SizeCons(g, rest);
  }

  /** The list grows by at most the realm and two characters, unless there is an excess; then by just so much more. */
  lemma {:induction false} RewriteSize(prev: string, fs: seq<string>, realm: string, start: bool)
    requires (forall f :: f in fs ==> f != "") && (prev == "" || (prev != realm && Subrealm(realm, prev) == 0))
    ensures var growth, excess := Size(Rewrite(prev, fs, realm, false, start)) - Size(fs), Excess(prev, fs, realm);
            if excess == 0 then growth <= |realm| + 2 else growth == |realm| + 2 + excess
    decreases |fs|
  {
    if fs == [] {
      SizeCons(Tail(start, realm), []);
    } else {
      var f, exp, rest := fs[0], ExpandField(prev, fs[0]), fs[1..];
      RewriteAdded(exp, rest, realm, false);
      if exp == realm {
        SizeCons(f, rest);
      } else if GoesAfter(exp, rest, realm) {
        SizePair(f, Piece(exp, realm), rest);
      } else if GoesBefore(exp, rest, realm) {
        BeforeSize(prev, f, realm);
        SizePair(Head(prev, realm), Piece(realm, exp), rest);
      } else {
        NotYetDue(exp, rest, realm);
        assert forall g :: g in rest ==> g in fs;
        RewriteSize(exp, rest, realm, false);
        SizeCons(f, Rewrite(exp, rest, realm, false, false));
      }
    }
  }

  lemma NotYetDue(exp: string, rest: seq<string>, realm: string)
    requires !GoesAfter(exp, rest, realm) && !GoesBefore(exp, rest, realm)
    ensures Subrealm(realm, exp) == 0
  {
  }

  /** In compressed form there are no misplaced fields. */
  lemma {:induction false} NoExcess(prev: string, fs: seq<string>, realm: string)
    requires WellFormedFrom(prev, fs)
    ensures Excess(prev, fs, realm) == 0
    decreases |fs|
  {
    if fs != [] { NoExcess(ExpandField(prev, fs[0]), fs[1..], realm); }
  }

  // ----- The theorems, on strings -----

  lemma AddFields(otrans: string, realm: string, client: string, server: string)
    requires WellFormed(otrans) && LegalRealm(realm)
    ensures Fields(AddSpec(otrans, realm, client, server)) ==
            Rewrite("", Fields(otrans), realm, Implicit(realm, client, server), true)
  {
    RewritePlain("", Fields(otrans), realm, Implicit(realm, client, server), true);
    FieldsOfJoin(Rewrite("", Fields(otrans), realm, Implicit(realm, client, server), true));
  }

  /**
   Adding a realm that is the client's or the server's, or that is already listed where it is
   looked for, changes nothing. Otherwise the new field stands for the old realms, in order,
   with the new one among them, if and only if every cut made falls between labels.
   */
  lemma AddMeaning(otrans: string, realm: string, client: string, server: string)
    requires WellFormed(otrans) && LegalRealm(realm)
    ensures var new' := AddSpec(otrans, realm, client, server);
            if Implicit(realm, client, server) then new' == otrans
            else if FoundFirst("", Fields(otrans), realm) then new' == otrans && realm in Expand(otrans)
            else Inserted(Expand(otrans), Expand(new'), realm) <==> CutsOnLabels("", Fields(otrans), realm)
  {
    AddFields(otrans, realm, client, server);
    if Implicit(realm, client, server) {
      RewriteAdded("", Fields(otrans), realm, true);
    } else if FoundFirst("", Fields(otrans), realm) {
      RewriteFound("", Fields(otrans), realm, true);
    } else {
      RewriteInserts("", Fields(otrans), realm, true);
    }
  }

  lemma AddKeepsForm(otrans: string, realm: string, client: string, server: string)
    requires WellFormed(otrans) && LegalRealm(realm)
    requires CutsOnLabels("", Fields(otrans), realm)
    ensures WellFormed(AddSpec(otrans, realm, client, server))
  {
    AddFields(otrans, realm, client, server);
    if Implicit(realm, client, server) {
      RewriteAdded("", Fields(otrans), realm, true);
    } else {
      RewriteWellFormed("", Fields(otrans), realm, true);
    }
  }

  /** The fields of a string take no more room than the string. */
  lemma {:induction false} FieldsFit(s: string)
    ensures |Join(Fields(s))| <= |s|
    decreases |s|
  {
    var (f, rest) := ReadSpec(s);
    if f != "" {
      FieldsFit(rest);
      assert ([f] + Fields(rest))[1..] == Fields(rest);
      if Fields(rest) != [] { ReadComma(s); }
    }
  }

  lemma {:induction false} ReadComma(s: string)
    requires ReadSpec(s).1 != ""
    ensures |ReadSpec(s).0| + 1 + |ReadSpec(s).1| <= |s|
  {
    if s[0] != ',' { ReadComma(s[1..]); }
  }

  /**
   The buffer allocated for the new field, two characters more than both inputs, is large enough
   if and only if the realm is implicit or the excess is made up for by characters of the old
   field that are dropped.
   */
  lemma AddLength(otrans: string, realm: string, client: string, server: string)
    ensures |AddSpec(otrans, realm, client, server)| <= |otrans| + |realm| + 2 <==>
            || Implicit(realm, client, server)
            || Excess("", Fields(otrans), realm) <= |otrans| - |Join(Fields(otrans))|
  {
    var fs := Fields(otrans);
    FieldsFit(otrans);
    if Implicit(realm, client, server) {
      RewriteAdded("", fs, realm, true);
    } else if fs != [] {
      RewriteSize("", fs, realm, true);
      JoinSize(fs);
      JoinSize(Rewrite("", fs, realm, false, true));
    }
  }

  /** For fields in compressed form it always is. */
  lemma AddLengthFormed(otrans: string, realm: string, client: string, server: string)
    requires WellFormed(otrans)
    ensures |AddSpec(otrans, realm, client, server)| <= |otrans| + |realm| + 2
  {
    NoExcess("", Fields(otrans), realm);
    AddLength(otrans, realm, client, server);
  }

  /** "/ABCDEFGH,X.", a domain-style name after an X.500-style one, and realm H: 22 characters, room for 15. */
  lemma OutgrowsExample()
    ensures var otrans := Join(["/ABCDEFGH", "X."]);
            var new' := AddSpec(otrans, "H", "A", "B");
            new' == Join(["/ABCDEFGH", "H", "X./ABCDEFG"]) && |new'| == 22 && |otrans| + |"H"| + 2 == 15
  {
    var fs := ["/ABCDEFGH", "X."];
    assert Plain("/ABCDEFGH") && Plain("X.");
    FieldsOfJoin(fs);
    OutgrowsFields();
    OutgrowsSizes();
  }

  lemma OutgrowsSizes()
    ensures |Join(["/ABCDEFGH", "X."])| == 12 && |Join(["/ABCDEFGH", "H", "X./ABCDEFG"])| == 22
  {
    JoinSize(["/ABCDEFGH", "X."]);
    JoinSize(["/ABCDEFGH", "H", "X./ABCDEFG"]);
    SizePair("/ABCDEFGH", "X.", []);
    SizePair("/ABCDEFGH", "H", ["X./ABCDEFG"]);
    SizeCons("X./ABCDEFG", []);
    assert ["/ABCDEFGH", "X."] + [] == ["/ABCDEFGH", "X."] && ["X./ABCDEFG"] + [] == ["X./ABCDEFG"];
    assert ["/ABCDEFGH", "H"] + ["X./ABCDEFG"] == ["/ABCDEFGH", "H", "X./ABCDEFG"];
  }

  lemma OutgrowsFields()
    ensures Rewrite("", ["/ABCDEFGH", "X."], "H", false, true) == ["/ABCDEFGH", "H", "X./ABCDEFG"]
  {
    var fs := ["/ABCDEFGH", "X."];
    assert fs[1..] == ["X."] && fs[1..][1..] == [];
    var exp := ExpandField("/ABCDEFGH", "X.");
    assert exp == "X./ABCDEFGH" && Piece("H", exp) == "X./ABCDEFG";
    assert Rewrite("/ABCDEFGH", ["X."], "H", false, false) == ["H", "X./ABCDEFG"];
  }

  // ----- Realms whose names nest along labels -----

  /** Whenever one name lies inside another, it does so along a label boundary. */
  ghost predicate NestOnLabels(realms: set<string>) {
    forall a, b :: a in realms && b in realms && Subrealm(a, b) != 0 ==> OnLabel(a, b)
  }

  lemma {:induction false} NestedCuts(prev: string, fs: seq<string>, realm: string, realms: set<string>)
    requires NestOnLabels(realms) && realm in realms && (prev == "" || prev in realms)
    requires forall e :: e in ExpandAll(prev, fs) ==> e in realms
    ensures CutsOnLabels(prev, fs, realm)
    decreases |fs|
  {
    if fs != [] {
      var exp := ExpandField(prev, fs[0]);
      assert exp in ExpandAll(prev, fs);
      assert forall e :: e in ExpandAll(exp, fs[1..]) ==> e in ExpandAll(prev, fs);
      if exp != realm && !GoesAfter(exp, fs[1..], realm) && !GoesBefore(exp, fs[1..], realm) {
        NestedCuts(exp, fs[1..], realm, realms);
      }
    }
  }

  function Elements(s: seq<string>): set<string> {
    set x | x in s
  }

  lemma InsertedElements(before: seq<string>, after: seq<string>, x: string)
    requires Inserted(before, after, x)
    ensures Elements(after) == Elements(before) + {x}
  {
    var k :| 0 <= k <= |before| && after == InsertAt(before, k, x);
    assert before == before[..k] + before[k..];
  }

  lemma AddNested(otrans: string, realm: string, client: string, server: string, realms: set<string>)
    requires WellFormed(otrans) && LegalRealm(realm)
    requires NestOnLabels(realms) && realm in realms && Elements(Expand(otrans)) <= realms
    ensures var new' := AddSpec(otrans, realm, client, server);
            && WellFormed(new')
            && Elements(Expand(new')) ==
               Elements(Expand(otrans)) + (if Implicit(realm, client, server) then {} else {realm})
  {
    assert forall e :: e in Expand(otrans) ==> e in Elements(Expand(otrans));
    NestedCuts("", Fields(otrans), realm, realms);
    AddKeepsForm(otrans, realm, client, server);
    AddMeaning(otrans, realm, client, server);
    var new' := AddSpec(otrans, realm, client, server);
    if !Implicit(realm, client, server) && !FoundFirst("", Fields(otrans), realm) {
      InsertedElements(Expand(otrans), Expand(new'), realm);
    }
  }

  // ----- Whole histories -----

  datatype Addition = Addition(realm: string, client: string, server: string)

  /** The field after a sequence of additions, starting from the empty field. */
  function Build(adds: seq<Addition>): string {
    if adds == [] then ""
    else
      var a := adds[|adds| - 1];
      AddSpec(Build(adds[..|adds| - 1]), a.realm, a.client, a.server)
  }

  function Named(adds: seq<Addition>): set<string> {
    set a | a in adds && !Implicit(a.realm, a.client, a.server) :: a.realm
  }

  /**
   Starting from the empty field, any finite sequence of additions of realms that nest along
   labels stays in compressed form and stands for exactly the realms that were added and were
   not implicit when they were added.
   */
  lemma {:induction false} BuildMeaning(adds: seq<Addition>, realms: set<string>)
    requires NestOnLabels(realms)
    requires forall a :: a in adds ==> LegalRealm(a.realm) && a.realm in realms
    ensures WellFormed(Build(adds)) && Elements(Expand(Build(adds))) == Named(adds)
  {
    if adds == [] {
      assert Fields("") == [];
    } else {
      var init, a := adds[..|adds| - 1], adds[|adds| - 1];
      BuildMeaning(init, realms);
      assert adds == init + [a];
      assert Named(adds) == Named(init) + (if Implicit(a.realm, a.client, a.server) then {} else {a.realm});
      AddNested(Build(init), a.realm, a.client, a.server, realms);
    }
  }

  // ----- A cut inside a label -----

  /** A realm named like another one with a letter in front is taken for its subrealm and listed as that letter. */
  lemma CutInsideLabel(r: string, c: char, client: string, server: string)
    requires LegalRealm(r) && First(r) != '/' && LegalRealm([c] + r) && c != '.' && c != '/'
    requires !Implicit([c] + r, client, server)
    ensures WellFormed(r) && !CutsOnLabels("", Fields(r), [c] + r)
    ensures Expand(AddSpec(r, [c] + r, client, server)) == [r, [c]]
  {
    var m := [c] + r;
    FieldsOfJoin([r]);
    assert Fields(r) == [r];
    assert m[1..] == r && Subrealm(r, m) == 1 && Piece(r, m) == [c];
    assert [r][1..] == [] && Rewrite(r, [], m, true, false) == [];
    assert Rewrite("", [r], m, false, true) == [r, [c]];
    AddFields(r, m, client, server);
    assert [r, [c]][1..] == [[c]] && [[c]][1..] == [];
    assert ExpandAll(r, [[c]]) == [[c]];
  }

  lemma CutInsideLabelExample()
    ensures Expand(AddSpec("IT.EDU", "MIT.EDU", "A", "B")) == ["IT.EDU", "M"]
  {
    var r := "IT.EDU";
    assert ['M'] + r == "MIT.EDU" && Last(r) == 'U';
    CutInsideLabel(r, 'M', "A", "B");
    assert ['M'] == "M";
  }
}
