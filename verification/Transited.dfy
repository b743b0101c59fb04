/**
 The transited-realm list of a cross-realm ticket (kdc_util.c).

 A transited field is a comma-separated list of realm names in which a name may be
 written relative to the name before it: "EDU,MIT.,ATHENA." stands for the realms
 EDU, MIT.EDU and ATHENA.MIT.EDU, and "/COM,/HP" for /COM and /COM/HP.
 `AddToTransited` splices one more realm into such a list and re-compresses its
 neighbours in a single pass; `Expand` gives a list its meaning.
 */
module Transited {
  import opened Sequences

  /** `Overrun`: more was written than there is room for, and what happens then is undefined. */
  datatype Outcome = Ok(trans: string) | IllegalCrossRealmTicket | Overrun

  const MAX_REALM_LN := 500

  // ----- Strings as the C code sees them -----

  /** The first character, or NUL for the empty string. */
  function First(s: string): char {
    if s == "" then '\0' else s[0]
  }

  function Last(s: string): char {
    if s == "" then '\0' else s[|s| - 1]
  }

  /** A realm name that can stand in a transited field without quoting. */
  predicate LegalRealm(r: string) {
    && r != "" && r[0] != ' ' && Last(r) != '.'
    && ',' !in r && '\\' !in r && '\0' !in r
  }

  // ----- subrealm -----

  /** Positive for a domain-style subrealm, negative for an X.500-style one, else 0. */
  function Subrealm(r1: string, r2: string): (n: int)
    ensures n > 0 ==> n == |r2| - |r1| && r2 == r2[..n] + r1 && First(r1) != '/' && First(r2) != '/'
    ensures n < 0 ==> -n == |r2| - |r1| && r2 == r1 + r2[|r1|..] && First(r1) == '/' && First(r2) == '/'
    ensures n == 0 ==> |r1| < |r2| ==>
                         && (First(r1) != '/' && First(r2) != '/' ==> r2[|r2| - |r1|..] != r1)
                         && (First(r1) == '/' && First(r2) == '/' ==> r2[..|r1|] != r1)
  {
    if |r2| <= |r1| then 0
    else if First(r1) == '/' && First(r2) == '/' && r1 == r2[..|r1|] then |r1| - |r2|
    else if First(r1) != '/' && First(r2) != '/' && r1 == r2[|r2| - |r1|..] then |r2| - |r1|
    else 0
  }

  /** The part of r2 that remains when it is written relative to r1. */
  function Piece(r1: string, r2: string): (p: string)
    requires Subrealm(r1, r2) != 0
    ensures |p| == |r2| - |r1| > 0
  {
    var pl := Subrealm(r1, r2);
    if pl > 0 then r2[..pl] else r2[|r2| + pl..]
  }

  /** The cut between r1 and the rest of r2 falls between two labels. */
  predicate OnLabel(r1: string, r2: string)
    requires Subrealm(r1, r2) != 0
  {
    r1 == "" || (if First(r2) == '/' then r2[|r1|] == '/' else r2[|r2| - |r1| - 1] == '.')
  }

  // ----- Reading the list -----

  /** Reads one field: up to a comma, dropping backslashes. */
  function ReadSpec(s: string): (fr: (string, string))
    ensures |fr.0| + |fr.1| <= |s|
    ensures ',' !in fr.0 && '\\' !in fr.0
  {
    if s == "" then ("", "")
    else if s[0] == '\\' then ReadSpec(s[1..])
    else if s[0] == ',' then ("", s[1..])
    else var fr := ReadSpec(s[1..]); ([s[0]] + fr.0, fr.1)
  }

  /** The fields of a transited string; reading stops at the first null field. */
  function Fields(s: string): (fs: seq<string>)
    ensures forall f :: f in fs ==> f != "" && ',' !in f && '\\' !in f
    decreases |s|
  {
    var fr := ReadSpec(s);
    if fr.0 == "" then [] else [fr.0] + Fields(fr.1)
  }

  function Join(fs: seq<string>): string {
    if fs == [] then "" else if |fs| == 1 then fs[0] else fs[0] + "," + Join(fs[1..])
  }

  /** A name written in field f, when the realm before it is prev. */
  function ExpandField(prev: string, f: string): string {
    if First(f) == ' ' then f[1..]
    else if First(f) == '/' && First(prev) == '/' then prev + f
    else if Last(f) == '.' then f + prev
    else f
  }

  function ExpandAll(prev: string, fs: seq<string>): (es: seq<string>)
    ensures |es| == |fs|
    decreases |fs|
  {
    if fs == [] then []
    else var e := ExpandField(prev, fs[0]); [e] + ExpandAll(e, fs[1..])
  }

  /** The realms a transited string stands for, in order. */
  function Expand(s: string): seq<string> {
    ExpandAll("", Fields(s))
  }

  // ----- What the pass does to the list of fields -----

  /** The test made on the field after the current one; a missing field counts as not compressed. */
  predicate Uncompressed(f: string) {
    Last(f) != '.' && First(f) != '/'
  }

  function Next(fs: seq<string>): string {
    if fs == [] then "" else fs[0]
  }

  predicate GoesAfter(exp: string, rest: seq<string>, realm: string) {
    Uncompressed(Next(rest)) && Subrealm(exp, realm) != 0
  }

  predicate GoesBefore(exp: string, rest: seq<string>, realm: string) {
    !GoesAfter(exp, rest, realm) && Subrealm(realm, exp) != 0
  }

  /** The field written for the new realm when it is put in front of the current one. */
  function Head(prev: string, realm: string): string {
    if Subrealm(prev, realm) != 0 then Piece(prev, realm)
    else if First(realm) == '/' && prev != "" then " " + realm
    else realm
  }

  /** The field written for the new realm at the end of the list. */
  function Tail(start: bool, realm: string): string {
    if First(realm) == '/' && !start then " " + realm else realm
  }

  function Rewrite(prev: string, fs: seq<string>, realm: string, added: bool, start: bool): seq<string>
    decreases |fs|
  {
    if fs == [] then (if added then [] else [Tail(start, realm)])
    else
      var exp := ExpandField(prev, fs[0]);
      var rest := fs[1..];
      if added || exp == realm then [fs[0]] + Rewrite(exp, rest, realm, true, false)
      else if GoesAfter(exp, rest, realm) then
        [fs[0], Piece(exp, realm)] + Rewrite(exp, rest, realm, true, false)
      else if GoesBefore(exp, rest, realm) then
        [Head(prev, realm), Piece(realm, exp)] + Rewrite(exp, rest, realm, true, false)
      else [fs[0]] + Rewrite(exp, rest, realm, false, false)
  }

  /** The realm to add is implicit: it is the client's or the server's. */
  predicate Implicit(realm: string, client: string, server: string) {
    client == realm || server == realm
  }

  function AddSpec(otrans: string, realm: string, client: string, server: string): string {
    Join(Rewrite("", Fields(otrans), realm, Implicit(realm, client, server), true))
  }

  // ----- What fits the buffers -----

  /** A name written in full fits; one written relative to prev must leave room for both and two characters. */
  predicate Expandable(prev: string, f: string) {
    First(f) != ' ' && ((First(f) == '/' && First(prev) == '/') || Last(f) == '.') ==>
      |prev| + |f| + 1 < MAX_REALM_LN
  }

  /** Every field fits its buffer, and so does the name it expands to. */
  predicate Roomy(prev: string, fs: seq<string>)
    decreases |fs|
  {
    fs == [] ||
    (&& |fs[0]| < MAX_REALM_LN && Expandable(prev, fs[0])
     && Roomy(ExpandField(prev, fs[0]), fs[1..]))
  }

  /** A list that fits one buffer as a whole is roomy. */
  lemma {:induction false} ShortIsRoomy(prev: string, s: string)
    requires |prev| + |s| + 1 < MAX_REALM_LN
    ensures Roomy(prev, Fields(s))
    decreases |s|
  {
    var (f, rest) := ReadSpec(s);
    if f != "" {
      ShortIsRoomy(ExpandField(prev, f), rest);
      assert ([f] + Fields(rest))[1..] == Fields(rest);
    }
  }

  // ----- The code -----

  /** Reads one field character by character; fails when it does not fit its buffer. */
  method ReadField(s: string) returns (ok: bool, field: string, rest: string)
    ensures ok <==> |ReadSpec(s).0| < MAX_REALM_LN
    ensures ok ==> field == ReadSpec(s).0 && rest == ReadSpec(s).1
  {
    field, rest := "", s;
    while rest != ""
      invariant |field| < MAX_REALM_LN
      invariant ReadSpec(s).0 == field + ReadSpec(rest).0 && ReadSpec(s).1 == ReadSpec(rest).1
      decreases |rest|
    {
      if rest[0] == '\\' {
        rest := rest[1..];
        if rest == "" { break; }
        continue;
      }
      if rest[0] == ',' {
        rest := rest[1..];
        return true, field, rest;
      }
      var c := rest[0];
      assert field + ReadSpec(rest).0 == field + [c] + ReadSpec(rest[1..]).0;
      field, rest := field + [c], rest[1..];
      if |field| >= MAX_REALM_LN {
        return false, field, rest;
      }
    }
    assert field + ReadSpec("").0 == field;
    ok := true;
  }

  /** The expanded form of the current name (lines 656 to 684). */
  method ExpandCurrent(prev: string, current: string) returns (ok: bool, exp: string)
    requires current != "" && |current| < MAX_REALM_LN
    ensures ok <==> Expandable(prev, current)
    ensures ok ==> exp == ExpandField(prev, current) && |exp| < MAX_REALM_LN
  {
    if current[0] == ' ' {
      exp := current[1..];
    } else if current[0] == '/' && First(prev) == '/' {
      exp := prev;
      if |exp| + |current| + 1 >= MAX_REALM_LN { return false, exp; }
      exp := exp + current;
    } else if current[|current| - 1] == '.' {
      exp := current;
      if |exp| + |prev| + 1 >= MAX_REALM_LN { return false, exp; }
      exp := exp + prev;
    } else {
      exp := current;
    }
    ok := true;
  }

  /** What the pass writes for one field while the new realm is still to be added. */
  ghost function Written(prev: string, field: string, exp: string, next: string, realm: string): seq<string> {
    if Uncompressed(next) && Subrealm(exp, realm) != 0 then [field, Piece(exp, realm)]
    else if Subrealm(realm, exp) != 0 then [Head(prev, realm), Piece(realm, exp)]
    else [field]
  }

  /** Puts the new realm after or before the current one, if it belongs there (lines 710 to 793). */
  method Splice(prev: string, field: string, exp: string, next: string, realm: string)
    returns (ok: bool, added: bool, current: string)
    requires field != "" && |field| < MAX_REALM_LN
    ensures !ok ==> |Join(Written(prev, field, exp, next, realm))| + 1 >= MAX_REALM_LN
    ensures ok ==> current == Join(Written(prev, field, exp, next, realm)) && current != ""
    ensures ok ==> (added <==> |Written(prev, field, exp, next, realm)| == 2)
  {
    ghost var written := Written(prev, field, exp, next, realm);
    JoinTwo(written);
    current, added := field, false;
    var pl := if Uncompressed(next) then Subrealm(exp, realm) else 0;
    if pl != 0 {
      // the new realm follows the current one
      added := true;
      if |current| + (if pl > 0 then pl else -pl) + 2 >= MAX_REALM_LN { return false, added, current; }
      current := current + ",";
      current := current + (if pl > 0 then realm[..pl] else realm[|realm| + pl..]);
    } else {
      pl := Subrealm(realm, exp);
      if pl != 0 {
        // the new realm precedes the current one, which is then written relative to it
        added, current := true, "";
        var pl1 := Subrealm(prev, realm);
        if pl1 != 0 {
          if |current| + (if pl1 > 0 then pl1 else -pl1) + 1 >= MAX_REALM_LN { return false, added, current; }
          current := current + (if pl1 > 0 then realm[..pl1] else realm[|realm| + pl1..]);
        } else {
          if First(realm) == '/' && prev != "" {
            if |current| + 2 >= MAX_REALM_LN { return false, added, current; }
            current := current + " ";
          }
          if |current| + |realm| + 1 >= MAX_REALM_LN { return false, added, current; }
          current := current + realm;
        }
        assert current == Head(prev, realm);
        if |current| + (if pl > 0 then pl else -pl) + 2 >= MAX_REALM_LN { return false, added, current; }
        current := current + ",";
        current := current + (if pl > 0 then exp[..pl] else exp[|exp| + pl..]);
      }
    }
    ok := true;
  }

  /** How writing to the output goes: well, refused by a check, or past the end of the buffer. */
  datatype Status = Fine | TooLong | Beyond

  /** Writing `full` in all, where `room` characters fit: what each outcome says about it. */
  predicate Tells(status: Status, full: string, room: nat) {
    match status
    case Fine => |full| + 1 < MAX_REALM_LN && |full| <= room
    case TooLong => |full| + 1 >= MAX_REALM_LN
    case Beyond => |full| > room
  }

  /** Appends a string to the output, after a comma unless it is the first (lines 795 to 807). */
  method Emit(trans: string, length: nat, current: string, room: nat) returns (status: Status, trans': string)
    requires length == 0 ==> trans == ""
    ensures var full := if length == 0 then current else trans + "," + current;
            Tells(status, full, room) && (status.Fine? ==> trans' == full)
  {
    trans' := trans;
    if length != 0 {
      if |trans'| + 2 >= MAX_REALM_LN { return TooLong, trans'; }
      trans' := trans' + ",";
      if |trans'| > room { return Beyond, trans'; }
    }
    if |trans'| + |current| + 1 >= MAX_REALM_LN { return TooLong, trans'; }
    trans' := trans' + current;
    status := if |trans'| > room then Beyond else Fine;
  }

  /** Appends the new realm itself at the end (lines 815 to 836). */
  method EmitLast(trans: string, length: nat, realm: string, room: nat) returns (status: Status, trans': string)
    requires length == 0 <==> trans == ""
    ensures var full := if length == 0 then Tail(true, realm) else trans + "," + Tail(false, realm);
            Tells(status, full, room) && (status.Fine? ==> trans' == full)
  {
    trans' := trans;
    if length != 0 {
      if |trans'| + 2 >= MAX_REALM_LN { return TooLong, trans'; }
      trans' := trans' + ",";
      if |trans'| > room { return Beyond, trans'; }
    }
    if First(realm) == '/' && trans' != "" {
      if |trans'| + 2 >= MAX_REALM_LN { return TooLong, trans'; }
      trans' := trans' + " ";
      if |trans'| > room { return Beyond, trans'; }
    }
    if |trans'| + |realm| + 1 >= MAX_REALM_LN { return TooLong, trans'; }
    trans' := trans' + realm;
    status := if |trans'| > room then Beyond else Fine;
  }

  /** The loop invariant: the output so far, then the walk over what is left, make up the goal. */
  ghost predicate Walking(goal: seq<string>, done: seq<string>, trans: string, length: nat,
                          prev: string, current: string, rest: string, realm: string, added: bool)
  {
    && goal == done + Rewrite(prev, Remaining(current, rest), realm, added, length == 0)
    && trans == Join(done)
    && (length == 0 <==> done == [])
    && (length == 0 <==> trans == "")
  }

  /** One round of the main loop (lines 654 to 813), after the current name has been expanded. */
  method Round(trans: string, length: nat, prev: string, current: string, rest: string, exp: string,
               realm: string, added: bool, room: nat, ghost goal: seq<string>, ghost done: seq<string>)
    returns (status: Status, trans': string, length': nat, next: string, rest': string, added': bool,
             ghost done': seq<string>)
    requires current != "" && |current| < MAX_REALM_LN && exp == ExpandField(prev, current)
    requires Walking(goal, done, trans, length, prev, current, rest, realm, added)
    ensures status.TooLong? ==> |ReadSpec(rest).0| >= MAX_REALM_LN || |Join(goal)| + 1 >= MAX_REALM_LN
    ensures status.Beyond? ==> |Join(goal)| > room
    ensures status.Fine? ==> Walking(goal, done', trans', length', exp, next, rest', realm, added')
    ensures status.Fine? ==> (next, rest') == ReadSpec(rest) && |next| < MAX_REALM_LN && Tells(Fine, trans', room)
    ensures status.Fine? ==> |Remaining(next, rest')| < |Remaining(current, rest)|
  {
    trans', length', added', done' := trans, length, added, done;
    var ok;
    ok, next, rest' := ReadField(rest);
    if !ok { status := TooLong; return; }
    ghost var w := if added || exp == realm then [current] else Written(prev, current, exp, next, realm);
    RewriteStep(goal, done, prev, current, rest, realm, added, length == 0);
    JoinAppend(done, w);
    JoinGrows(goal, done, w);
    var current' := current;
    if exp == realm { added' := true; }
    if !added' {
      ok, added', current' := Splice(prev, current, exp, next, realm);
      if !ok { status := TooLong; return; }
    }
    status, trans' := Emit(trans, length, current', room);
    length', done' := |trans'| + 1, done + w;
  }

  /**
   add_to_transited. `otrans` is the old field as a C string, `realm` the realm of the
   ticket granting server, `client` and `server` the realms left implicit. Every length
   check of the code is kept, in its place; nothing checks the size of the buffer that was
   allocated for the result.
   */
  method AddToTransited(otrans: string, realm: string, client: string, server: string)
    returns (r: Outcome)
    ensures var new' := AddSpec(otrans, realm, client, server);
            && (r.Ok? <==> Roomy("", Fields(otrans)) && |new'| <= 498 && |new'| <= |otrans| + |realm| + 2)
            && (r.Ok? ==> r.trans == new')
            && (r.IllegalCrossRealmTicket? ==> !Roomy("", Fields(otrans)) || |new'| > 498)
            && (r.Overrun? ==> |new'| > |otrans| + |realm| + 2)
  {
    var trans, prev, length: nat := "", "", 0;
    var room := |realm| + |otrans| + 2;
    var ok, current, rest := ReadField(otrans);
    if !ok { return IllegalCrossRealmTicket; }
    var added := client == realm || server == realm;
    var status := Fine;
    ghost var done: seq<string> := [];
    ghost var goal := Rewrite("", Fields(otrans), realm, added, true);
    while current != ""
      invariant |current| < MAX_REALM_LN
      invariant Roomy(prev, Remaining(current, rest)) <==> Roomy("", Fields(otrans))
      invariant Tells(Fine, trans, room)
      invariant Walking(goal, done, trans, length, prev, current, rest, realm, added)
      decreases |Remaining(current, rest)|
    {
      var exp: string;
      RoomyStep(prev, current, rest);
      ok, exp := ExpandCurrent(prev, current);
      if !ok { return IllegalCrossRealmTicket; }
      var next: string;
      status, trans, length, next, rest, added, done :=
        Round(trans, length, prev, current, rest, exp, realm, added, room, goal, done);
      if status.TooLong? { return IllegalCrossRealmTicket; }
      if status.Beyond? { return Overrun; }
      prev, current := exp, next;
    }
    if !added {
      JoinAppend(done, [Tail(length == 0, realm)]);
      status, trans := EmitLast(trans, length, realm, room);
      if status.TooLong? { return IllegalCrossRealmTicket; }
      if status.Beyond? { return Overrun; }
    } else {
      assert goal == done;
    }
    return Ok(trans);
  }

  lemma RoomyStep(prev: string, current: string, rest: string)
    requires current != "" && |current| < MAX_REALM_LN
    ensures var (next, rest') := ReadSpec(rest);
            && (Roomy(prev, Remaining(current, rest)) <==>
                Expandable(prev, current) && Roomy(ExpandField(prev, current), Remaining(next, rest')))
            && (|next| >= MAX_REALM_LN ==> !Roomy(ExpandField(prev, current), Remaining(next, rest')))
  {
    assert ([current] + Fields(rest))[1..] == Fields(rest);
  }

  /** One round of the loop moves the fields it writes from the walk still to come to the output. */
  lemma RewriteStep(goal: seq<string>, done: seq<string>, prev: string, current: string, unread: string,
                    realm: string, added: bool, start: bool)
    requires current != ""
    requires goal == done + Rewrite(prev, Remaining(current, unread), realm, added, start)
    ensures var exp, next := ExpandField(prev, current), ReadSpec(unread).0;
            var w := if added || exp == realm then [current] else Written(prev, current, exp, next, realm);
            goal == (done + w) + Rewrite(exp, Remaining(next, ReadSpec(unread).1), realm,
                                         added || exp == realm || |w| == 2, false)
  {
    var exp, rest := ExpandField(prev, current), Fields(unread);
    assert Remaining(ReadSpec(unread).0, ReadSpec(unread).1) == rest;
    var w := if added || exp == realm then [current] else Written(prev, current, exp, Next(rest), realm);
    RewriteHead(prev, current, rest, realm, added, start);
    Regroup(done, w, Rewrite(exp, rest, realm, added || exp == realm || |w| == 2, false));
  }

  lemma RewriteHead(prev: string, current: string, rest: seq<string>, realm: string, added: bool, start: bool)
    ensures var exp := ExpandField(prev, current);
            var w := if added || exp == realm then [current] else Written(prev, current, exp, Next(rest), realm);
            Rewrite(prev, [current] + rest, realm, added, start) ==
            w + Rewrite(exp, rest, realm, added || exp == realm || |w| == 2, false)
  {
    assert ([current] + rest)[1..] == rest;
  }

  lemma JoinGrows(all: seq<string>, xs: seq<string>, ys: seq<string>)
    requires xs + ys <= all && ys != []
    ensures |Join(ys)| <= |Join(xs + ys)| <= |Join(all)|
  {
    JoinAppend(xs, ys);
    var zs := all[|xs + ys|..];
    assert all == (xs + ys) + zs;
    if zs == [] { assert all == xs + ys; } else { JoinAppend(xs + ys, zs); }
  }

  /** The fields still to be processed: the current one, if any, and the unread ones. */
  ghost function Remaining(current: string, rest: string): seq<string> {
    if current == "" then [] else [current] + Fields(rest)
  }

  lemma JoinTwo(fs: seq<string>)
    requires 1 <= |fs| <= 2
    ensures Join(fs) == if |fs| == 1 then fs[0] else fs[0] + "," + fs[1]
  {
  }

  lemma {:induction false} JoinAppend(xs: seq<string>, ys: seq<string>)
    requires ys != []
    ensures Join(xs + ys) == if xs == [] then Join(ys) else Join(xs) + "," + Join(ys)
  {
    if xs == [] {
      assert xs + ys == ys;
    } else {
      assert xs + ys == [xs[0]] + (xs[1..] + ys);
      JoinAppend(xs[1..], ys);
      if |xs| > 1 {
        assert xs[0] + "," + Join(xs[1..] + ys) == Join(xs) + "," + Join(ys);
      }
    }
  }
}
