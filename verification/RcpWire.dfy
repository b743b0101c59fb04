/**
 The control records of rcp (krcp.c): how `source` and `rsource` print them and how
 `sink` and `response` read them back.
 */
module RcpWire {
  import opened Options

  const SOH: char := '\U{0001}'
  const STX: char := '\U{0002}'
  const ACK: string := "\0"
  /** An error report; what it says is of no consequence to the protocol. */
  const ERROR: string := [SOH] + "rcp: error\n"

  // ----- Numbers -----

  predicate IsDigit(c: char) {
    '0' <= c <= '9'
  }

  function Digit(d: nat): char
    requires d < 10
  {
    '0' + d as char
  }

  function Value(c: char): nat
    requires IsDigit(c)
  {
    c as nat - '0' as nat
  }

  /** Decimal, as printed by %ld. */
  function Dec(n: nat): string {
    if n < 10 then [Digit(n)] else Dec(n / 10) + [Digit(n % 10)]
  }

  const MODE_MASK: nat := 4096

  /** The low twelve bits of a mode in four octal digits, as printed by %04o. */
  function Oct(m: nat): string {
    [Digit(m / 8 / 8 / 8 % 8), Digit(m / 8 / 8 % 8), Digit(m / 8 % 8), Digit(m % 8)]
  }

  /** The getnum loop: digits are taken as long as there are any. */
  function GetNum(acc: nat, s: string): (nat, string)
    decreases |s|
  {
    if s == "" || !IsDigit(s[0]) then (acc, s) else GetNum(acc * 10 + Value(s[0]), s[1..])
  }

  lemma {:induction false} GetNumDec(n: nat, rest: string)
    ensures GetNum(0, Dec(n) + rest) == GetNum(n, rest)
  {
    if n < 10 {
      var s := Dec(n) + rest;
      assert s[0] == Digit(n) && s[1..] == rest;
    } else {
      var d := [Digit(n % 10)];
      assert Dec(n) + rest == Dec(n / 10) + (d + rest);
      GetNumDec(n / 10, d + rest);
      assert (d + rest)[0] == Digit(n % 10) && (d + rest)[1..] == rest;
    }
  }

  /** The mode loop over the four characters after the record type. */
  function GetMode(s: string): int
    requires |s| == 4
  {
    if forall i :: 0 <= i < 4 ==> '0' <= s[i] <= '7' then
      ((Value(s[0]) * 8 + Value(s[1])) * 8 + Value(s[2])) * 8 + Value(s[3])
    else -1
  }

  lemma GetModeOct(m: nat)
    ensures GetMode(Oct(m)) == m % MODE_MASK
  {
    var q, r, t := m / 8, m / 8 / 8, m / 8 / 8 / 8;
    DigitValue(t % 8);
    DigitValue(r % 8);
    DigitValue(q % 8);
    DigitValue(m % 8);
    OctalDigits(m, t / 8, t % 8, r % 8, q % 8, m % 8) by {
      assert m == q * 8 + m % 8 && q == r * 8 + q % 8 && r == t * 8 + r % 8 && t == t / 8 * 8 + t % 8;
    }
  }

  lemma DigitValue(d: nat)
    requires d < 8
    ensures '0' <= Digit(d) <= '7' && Value(Digit(d)) == d
  {
  }

  lemma OctalDigits(m: nat, u: nat, a: nat, b: nat, c: nat, d: nat)
    requires a < 8 && b < 8 && c < 8 && d < 8 && m == (((u * 8 + a) * 8 + b) * 8 + c) * 8 + d
    ensures ((a * 8 + b) * 8 + c) * 8 + d == m % MODE_MASK
  {
    assert m == u * 4096 + (((a * 8 + b) * 8 + c) * 8 + d);
  }

  // ----- Records -----

  /** A control record as the sink understands it; `Screwup` is a protocol error. */
  datatype Record =
    | Failure | Fatal | End | Screwup
    | SetTimes(mtime: nat, atime: nat)
    | MakeFile(mode: nat, size: nat, name: string)
    | MakeDir(mode: nat, name: string)

  function TimesLine(mtime: nat, atime: nat): string {
    "T" + Dec(mtime) + " 0 " + Dec(atime) + " 0"
  }

  function FileLine(mode: nat, size: nat, name: string): string {
    "C" + Oct(mode) + " " + Dec(size) + " " + name
  }

  function DirLine(mode: nat, name: string): string {
    "D" + Oct(mode) + " " + Dec(0) + " " + name
  }

  /** Takes a character if it is the expected one. */
  predicate Takes(s: string, c: char) {
    s != "" && s[0] == c
  }

  /** A number and what follows the blank after it. */
  function Delimited(s: string): Option<(nat, string)> {
    var (n, rest) := GetNum(0, s);
    if Takes(rest, ' ') then Some((n, rest[1..])) else None
  }

  function ParseTimes(s: string): Record {
    match Delimited(s)
    case None => Screwup
    case Some((mtime, s1)) =>
      match Delimited(s1)
      case None => Screwup
      case Some((_, s2)) =>
        match Delimited(s2)
        case None => Screwup
        case Some((atime, s3)) => if GetNum(0, s3).1 != "" then Screwup else SetTimes(mtime, atime)
  }

  function ParseMake(dir: bool, s: string): Record {
    if |s| < 5 || GetMode(s[..4]) < 0 || s[4] != ' ' then Screwup
    else
      match Delimited(s[5..])
      case None => Screwup
      case Some((size, name)) =>
        if dir then MakeDir(GetMode(s[..4]), name) else MakeFile(GetMode(s[..4]), size, name)
  }

  /** What sink makes of a line, without its newline. */
  function Parse(s: string): Record {
    if s == "" then Screwup
    else if s[0] == SOH then Failure
    else if s[0] == STX then Fatal
    else if s[0] == 'E' then End
    else if s[0] == 'T' then ParseTimes(s[1..])
    else if s[0] == 'C' then ParseMake(false, s[1..])
    else if s[0] == 'D' then ParseMake(true, s[1..])
    else Screwup
  }

  // ----- Which records are refused -----

  ghost predicate Digits(s: string, i: nat, k: nat) {
    i <= k <= |s| && forall j :: i <= j < k ==> '0' <= s[j] <= '9'
  }

  /** The number that starts at i ends at k, in front of a character that is no digit, or at the end. */
  lemma {:induction false} NumberEnds(acc: nat, s: string, i: nat, k: nat)
    requires Digits(s, i, k) && (k < |s| ==> !('0' <= s[k] <= '9'))
    ensures GetNum(acc, s[i..]).1 == s[k..]
    decreases k - i
  {
    if i < k { NumberEnds(acc * 10 + Value(s[i]), s, i + 1, k); }
  }

  /** Where the number that starts at i ends. */
  lemma {:induction false} SomeEnd(s: string, i: nat) returns (k: nat)
    requires i <= |s|
    ensures Digits(s, i, k) && (k < |s| ==> !('0' <= s[k] <= '9'))
    decreases |s| - i
  {
    k := i;
    if i < |s| && '0' <= s[i] <= '9' { k := SomeEnd(s, i + 1); }
  }

  lemma DelimitedAt(s: string, i: nat, k: nat)
    requires Digits(s, i, k) && k < |s| && s[k] == ' '
    ensures Delimited(s[i..]).Some? && Delimited(s[i..]).value.1 == s[k + 1..]
  {
    NumberEnds(0, s, i, k);
    assert s[k..][1..] == s[k + 1..];
  }

  lemma DelimitedForm(s: string, i: nat) returns (k: nat)
    requires i <= |s| && Delimited(s[i..]).Some?
    ensures Digits(s, i, k) && k < |s| && s[k] == ' ' && Delimited(s[i..]).value.1 == s[k + 1..]
  {
    k := SomeEnd(s, i);
    NumberEnds(0, s, i, k);
    assert s[k..][1..] == s[k + 1..];
  }

  /** Four octal digits, a blank, a number, and a blank at k. */
  ghost predicate MakesAt(s: string, k: nat) {
    && 5 <= k < |s| && (forall i :: 0 <= i < 4 ==> '0' <= s[i] <= '7') && s[4] == ' '
    && Digits(s, 5, k) && s[k] == ' '
  }

  /** A file or directory record is obeyed exactly if it has this form; the name is all that follows. */
  lemma MakeForm(dir: bool, s: string)
    ensures ParseMake(dir, s) != Screwup <==> exists k: nat :: MakesAt(s, k)
    ensures forall k: nat :: MakesAt(s, k) ==> ParseMake(dir, s).name == s[k + 1..]
  {
    assert |s| >= 4 ==> forall i :: 0 <= i < 4 ==> s[..4][i] == s[i];
    forall k: nat | MakesAt(s, k) ensures ParseMake(dir, s) != Screwup && ParseMake(dir, s).name == s[k + 1..] {
      DelimitedAt(s, 5, k);
    }
    if ParseMake(dir, s) != Screwup {
      var k := DelimitedForm(s, 5);
      assert forall i :: 0 <= i < 4 ==> '0' <= s[..4][i] <= '7';
      assert MakesAt(s, k);
    }
  }

  /** Four numbers with a blank after each but the last, which ends the record. */
  ghost predicate TimesAt(s: string, i: nat, j: nat, k: nat) {
    && i < j < k < |s| && s[i] == ' ' && s[j] == ' ' && s[k] == ' '
    && Digits(s, 0, i) && Digits(s, i + 1, j) && Digits(s, j + 1, k) && Digits(s, k + 1, |s|)
  }

  /** A times record is obeyed exactly if it has this form. */
  lemma TimesForm(s: string)
    ensures ParseTimes(s) != Screwup <==> exists i: nat, j: nat, k: nat :: TimesAt(s, i, j, k)
  {
    forall i: nat, j: nat, k: nat | TimesAt(s, i, j, k) ensures ParseTimes(s) != Screwup {
      TimesAccepted(s, i, j, k);
    }
    if ParseTimes(s) != Screwup { TimesShape(s); }
  }

  lemma TimesAccepted(s: string, i: nat, j: nat, k: nat)
    requires TimesAt(s, i, j, k)
    ensures ParseTimes(s) != Screwup
  {
    assert s[0..] == s;
    DelimitedAt(s, 0, i);
    DelimitedAt(s, i + 1, j);
    DelimitedAt(s, j + 1, k);
    NumberEnds(0, s, k + 1, |s|);
  }

  lemma TimesShape(s: string)
    requires ParseTimes(s) != Screwup
    ensures exists i: nat, j: nat, k: nat :: TimesAt(s, i, j, k)
  {
    assert s[0..] == s;
    var i := DelimitedForm(s, 0);
    var j := DelimitedForm(s, i + 1);
    var k := DelimitedForm(s, j + 1);
    var e := SomeEnd(s, k + 1);
    NumberEnds(0, s, k + 1, e);
    assert TimesAt(s, i, j, k);
  }

  /** The first character says what a record is; anything else is a protocol error. */
  lemma RecordKinds(s: string)
    ensures s == "" || s[0] !in {'\U{0001}', '\U{0002}', 'E', 'T', 'C', 'D'} ==> Parse(s) == Screwup
    ensures s != "" && s[0] == '\U{0001}' ==> Parse(s) == Failure
    ensures s != "" && s[0] == '\U{0002}' ==> Parse(s) == Fatal
    ensures s != "" && s[0] == 'E' ==> Parse(s) == End
    ensures s != "" && s[0] == 'T' ==> Parse(s) == Screwup || Parse(s).SetTimes?
    ensures s != "" && s[0] == 'C' ==> Parse(s) == Screwup || Parse(s).MakeFile?
    ensures s != "" && s[0] == 'D' ==> Parse(s) == Screwup || Parse(s).MakeDir?
  {
  }

  /** A number followed by something that is not a digit is read back whole. */
  lemma GetNumBack(n: nat, rest: string)
    requires rest == "" || !IsDigit(rest[0])
    ensures GetNum(0, Dec(n) + rest) == (n, rest)
  {
    GetNumDec(n, rest);
  }

  lemma ParseTimesBack(mtime: nat, atime: nat)
    ensures Parse(TimesLine(mtime, atime)) == SetTimes(mtime, atime)
  {
    var d3 := " 0";
    var d2 := Dec(atime) + d3;
    var d1 := "0 " + d2;
    var s := TimesLine(mtime, atime);
    assert s[1..] == Dec(mtime) + (" " + d1);
    GetNumBack(mtime, " " + d1);
    assert (" " + d1)[1..] == d1 == Dec(0) + (" " + d2);
    GetNumBack(0, " " + d2);
    assert (" " + d2)[1..] == d2;
    GetNumBack(atime, d3);
    assert d3[1..] == Dec(0) + "";
    GetNumBack(0, "");
  }

  lemma ParseMakeBack(dir: bool, mode: nat, size: nat, name: string)
    ensures ParseMake(dir, Oct(mode) + " " + Dec(size) + " " + name) ==
            if dir then MakeDir(mode % MODE_MASK, name) else MakeFile(mode % MODE_MASK, size, name)
  {
    var s := Oct(mode) + " " + Dec(size) + " " + name;
    assert s[..4] == Oct(mode) && s[4] == ' ' && s[5..] == Dec(size) + (" " + name);
    GetModeOct(mode);
    GetNumBack(size, " " + name);
    assert (" " + name)[1..] == name;
  }

  /** The sink reads every record back as the source meant it. */
  lemma ParseBack(mode: nat, size: nat, name: string)
    ensures Parse(FileLine(mode, size, name)) == MakeFile(mode % MODE_MASK, size, name)
    ensures Parse(DirLine(mode, name)) == MakeDir(mode % MODE_MASK, name)
    ensures Parse("E") == End
  {
    var f, d := FileLine(mode, size, name), DirLine(mode, name);
    assert f[1..] == Oct(mode) + " " + Dec(size) + " " + name;
    assert d[1..] == Oct(mode) + " " + Dec(0) + " " + name;
    ParseMakeBack(false, mode, size, name);
    ParseMakeBack(true, mode, 0, name);
  }

  // ----- Lines on the stream -----

  predicate HasLine(s: string) {
    '\n' in s
  }

  /** The first line of the stream and what follows its newline. */
  function ReadLine(s: string): (string, string)
    requires HasLine(s)
  {
    if s[0] == '\n' then ("", s[1..])
    else var (line, rest) := ReadLine(s[1..]); ([s[0]] + line, rest)
  }

  lemma {:induction false} ReadLineBack(line: string, rest: string)
    requires '\n' !in line
    ensures HasLine(line + "\n" + rest) && ReadLine(line + "\n" + rest) == (line, rest)
  {
    var s := line + "\n" + rest;
    assert s[|line|] == '\n';
    if line == "" {
      assert s[1..] == rest;
    } else {
      assert s[1..] == line[1..] + "\n" + rest;
      ReadLineBack(line[1..], rest);
      assert line == [line[0]] + line[1..];
    }
  }

  lemma {:induction false} DecPlain(n: nat)
    ensures '\n' !in Dec(n)
  {
    if n >= 10 { DecPlain(n / 10); }
  }

  lemma LinesPlain(mode: nat, size: nat, mtime: nat, atime: nat, name: string)
    requires '\n' !in name
    ensures '\n' !in TimesLine(mtime, atime)
    ensures '\n' !in FileLine(mode, size, name)
    ensures '\n' !in DirLine(mode, name)
  {
    DecPlain(size);
    DecPlain(mtime);
    DecPlain(atime);
    DecPlain(0);
  }

  // ----- Responses -----

  /** A whole response is on the stream: an acknowledgement byte, or a message up to its newline. */
  predicate HasResponse(s: string) {
    s != "" && (s[0] == '\0' || HasLine(s[1..]))
  }

  /** response: whether the answer was positive, and the stream after it. */
  function ReadResponse(s: string): (bool, string)
    requires HasResponse(s)
  {
    if s[0] == '\0' then (true, s[1..]) else (false, ReadLine(s[1..]).1)
  }

  lemma ResponseBack(rest: string)
    ensures HasResponse(ACK + rest) && ReadResponse(ACK + rest) == (true, rest)
    ensures HasResponse(ERROR + rest) && ReadResponse(ERROR + rest) == (false, rest)
    ensures HasLine(ERROR + rest) && ReadLine(ERROR + rest).1 == rest && Parse(ReadLine(ERROR + rest).0) == Failure
  {
    assert (ACK + rest)[1..] == rest;
    var text := "rcp: error";
    assert '\n' !in text;
    assert (ERROR + rest)[1..] == text + "\n" + rest;
    ReadLineBack(text, rest);
    assert ERROR + rest == ([SOH] + text) + "\n" + rest;
    ReadLineBack([SOH] + text, rest);
  }
}
