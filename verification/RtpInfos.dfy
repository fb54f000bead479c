/** The parser of the RTP-Info header: two numeric parameters in either order. */
module RtpInfos {
  import opened Basics

  datatype RtpInfo = RtpInfo(sequence: nat, rtptime: nat)

  /** A parser's result: the rest of the input and a value, or a recoverable error. */
  datatype Parse<T> = Ok(rest: string, value: T) | Error

  // ---------------------------------------------------------------------------------
  // The combinators
  // ---------------------------------------------------------------------------------

  predicate Blank(c: char) {
    c == ' ' || c == '\t'
  }

  predicate Digit(c: char) {
    '0' <= c <= '9'
  }

  function Lower(c: char): char {
    if 'A' <= c <= 'Z' then (c as int + 32) as char else c
  }

  function Space0(s: string): string {
    if s != [] && Blank(s[0]) then Space0(s[1..]) else s
  }

  /** A tag in lower case, matched without regard to case. */
  function TagNoCase(tag: string, s: string): Parse<()> {
    if |s| >= |tag| && forall i :: 0 <= i < |tag| ==> Lower(s[i]) == tag[i] then Ok(s[|tag|..], ()) else Error
  }

  function Char(c: char, s: string): Parse<()> {
    if s != [] && s[0] == c then Ok(s[1..], ()) else Error
  }

  /** How many digits the input starts with. */
  function Digits(s: string): (n: nat)
    ensures n <= |s| && (forall i :: 0 <= i < n ==> Digit(s[i])) && (n < |s| ==> !Digit(s[n]))
  {
    if s != [] && Digit(s[0]) then 1 + Digits(s[1..]) else 0
  }

  function Value(ds: string): nat
    requires forall i :: 0 <= i < |ds| ==> Digit(ds[i])
  {
    if ds == [] then 0
    else
      var c := ds[|ds| - 1];
      assert Digit(c);
      10 * Value(ds[..|ds| - 1]) + (c as int - '0' as int)
  }

  /** At least one digit, of a value that fits the target type. */
  function Decimal(max: nat, s: string): Parse<nat> {
    var n := Digits(s);
    if n == 0 || Value(s[..n]) > max then Error else Ok(s[n..], Value(s[..n]))
  }

  /** What stands behind the equals sign. */
  function ParameterTail(max: nat, s: string): Parse<nat> {
    match Decimal(max, Space0(s))
    case Error => Error
    case Ok(s3, v) =>
      match Char(';', Space0(s3))
      case Error => Ok(Space0(s3), v)
      case Ok(s4, _) => Ok(s4, v)
  }

  function Parameter(tag: string, max: nat, s: string): Parse<nat> {
    match TagNoCase(tag, Space0(s))
    case Error => Error
    case Ok(s1, _) =>
      match Char('=', Space0(s1))
      case Error => Error
      case Ok(s2, _) => ParameterTail(max, s2)
  }

  const MAX16: nat := 0xFFFF
  const MAX32: nat := 0xFFFF_FFFF

  /** The permutation: whichever parameter fits first, then the other one. */
  function ParseInfo(s: string): Parse<RtpInfo> {
    match Parameter("seq", MAX16, s)
    case Ok(r, q) =>
      (match Parameter("rtptime", MAX32, r)
       case Ok(rest, t) => Ok(rest, RtpInfo(q, t))
       case Error => Error)
    case Error =>
      match Parameter("rtptime", MAX32, s)
      case Ok(r, t) =>
        (match Parameter("seq", MAX16, r)
         case Ok(rest, q) => Ok(rest, RtpInfo(q, t))
         case Error => Error)
      case Error => Error
  }

  // ---------------------------------------------------------------------------------
  // The grammar
  // ---------------------------------------------------------------------------------

  /** One way to write a parameter down. */
  datatype Spelling = Spelling(
    name: string, digits: string, semicolon: bool,
    before: string, afterName: string, beforeDigits: string, afterDigits: string)

  predicate Blanks(s: string) {
    forall i :: 0 <= i < |s| ==> Blank(s[i])
  }

  predicate Spells(p: Spelling, tag: string) {
    && |p.name| == |tag| && (forall i :: 0 <= i < |tag| ==> Lower(p.name[i]) == tag[i])
    && p.digits != [] && (forall i :: 0 <= i < |p.digits| ==> Digit(p.digits[i]))
    && Blanks(p.before) && Blanks(p.afterName) && Blanks(p.beforeDigits) && Blanks(p.afterDigits)
  }

  function AfterEquals(p: Spelling): string {
    p.beforeDigits + (p.digits + (p.afterDigits + (if p.semicolon then ";" else "")))
  }

  function Text(p: Spelling): string {
    p.before + (p.name + (p.afterName + ("=" + AfterEquals(p))))
  }

  /** The parameter ends where it is written to end, given what follows. */
  predicate EndsBefore(p: Spelling, rest: string) {
    p.semicolon || rest == [] ||
    (rest[0] != ';' && !Blank(rest[0]) && (p.afterDigits == [] ==> !Digit(rest[0])))
  }

  // ---------------------------------------------------------------------------------
  // One parameter
  // ---------------------------------------------------------------------------------

  lemma {:induction false} SkipsBlanks(blanks: string, s: string)
    requires Blanks(blanks) && (s == [] || !Blank(s[0]))
    ensures Space0(blanks + s) == s
  {
    if blanks == [] {
      assert blanks + s == s;
    } else {
      assert (blanks + s)[1..] == blanks[1..] + s;
      SkipsBlanks(blanks[1..], s);
    }
  }

  lemma {:induction false} BlanksSkipped(s: string) returns (blanks: string)
    ensures Blanks(blanks) && s == blanks + Space0(s)
    ensures Space0(s) == [] || !Blank(Space0(s)[0])
  {
    if s != [] && Blank(s[0]) {
      var more := BlanksSkipped(s[1..]);
      blanks := [s[0]] + more;
      assert s == [s[0]] + (more + Space0(s[1..]));
    } else {
      blanks := [];
    }
  }

  lemma {:induction false} TakesDigits(ds: string, s: string)
    requires (forall i :: 0 <= i < |ds| ==> Digit(ds[i])) && (s == [] || !Digit(s[0]))
    ensures Digits(ds + s) == |ds|
  {
    if ds == [] {
      assert ds + s == s;
    } else {
      assert (ds + s)[1..] == ds[1..] + s;
      TakesDigits(ds[1..], s);
    }
  }

  lemma ReadsNumber(max: nat, p: Spelling, tag: string, rest: string)
    requires Spells(p, tag) && EndsBefore(p, rest)
    ensures var s := Space0(AfterEquals(p) + rest);
            Value(p.digits) > max ==> Decimal(max, s) == Error
    ensures var s := Space0(AfterEquals(p) + rest);
            Value(p.digits) <= max ==>
              && Decimal(max, s).Ok? && Decimal(max, s).value == Value(p.digits)
              && Space0(Decimal(max, s).rest) == (if p.semicolon then ";" else "") + rest
  {
    var last := (if p.semicolon then ";" else "") + rest;
    var after := p.afterDigits + last;
    TailRegroups(p, rest);
    SkipsBlanks(p.beforeDigits, p.digits + after);
    TakesDigits(p.digits, after);
    assert (p.digits + after)[..|p.digits|] == p.digits;
    assert (p.digits + after)[|p.digits|..] == after;
    SkipsBlanks(p.afterDigits, last);
  }

  lemma ReadsHead(tag: string, max: nat, p: Spelling, tail: string)
    requires Spells(p, tag) && tag != [] && !Blank(tag[0])
    ensures Parameter(tag, max, p.before + (p.name + (p.afterName + ("=" + tail)))) == ParameterTail(max, tail)
  {
    var named := p.name + (p.afterName + ("=" + tail));
    assert !Blank(p.name[0]) by {
      assert Lower(p.name[0]) == tag[0];
    }
    SkipsBlanks(p.before, named);
    assert named[|tag|..] == p.afterName + ("=" + tail);
    SkipsBlanks(p.afterName, "=" + tail);
    assert ("=" + tail)[1..] == tail;
  }

  lemma ReadsTail(tag: string, max: nat, p: Spelling, rest: string)
    requires Spells(p, tag) && EndsBefore(p, rest)
    ensures ParameterTail(max, AfterEquals(p) + rest) ==
            if Value(p.digits) <= max then Ok(rest, Value(p.digits)) else Error
  {
    ReadsNumber(max, p, tag, rest);
    if p.semicolon {
      assert (";" + rest)[1..] == rest;
    } else {
      assert "" + rest == rest;
    }
  }

  /** A parameter written down in any way is read back, and what follows it is left; a value that
      does not fit is refused. */
  lemma ParameterReadsSpelling(tag: string, max: nat, p: Spelling, rest: string)
    requires Spells(p, tag) && EndsBefore(p, rest)
    requires tag != [] && !Blank(tag[0])
    ensures Parameter(tag, max, Text(p) + rest) ==
            if Value(p.digits) <= max then Ok(rest, Value(p.digits)) else Error
  {
    TextRegroups(p, rest);
    ReadsHead(tag, max, p, AfterEquals(p) + rest);
    ReadsTail(tag, max, p, rest);
  }

  lemma LastPiece(s3: string) returns (afterDigits: string, semicolon: bool, rest: string)
    ensures Blanks(afterDigits)
    ensures s3 == afterDigits + ((if semicolon then ";" else "") + rest)
    ensures semicolon == Char(';', Space0(s3)).Ok?
    ensures rest == if semicolon then Char(';', Space0(s3)).rest else Space0(s3)
    ensures semicolon || rest == [] || (rest[0] != ';' && !Blank(rest[0]))
  {
    afterDigits := BlanksSkipped(s3);
    var v := Space0(s3);
    semicolon := Char(';', v).Ok?;
    rest := if semicolon then v[1..] else v;
    assert v == (if semicolon then ";" else "") + rest;
  }

  predicate AllDigits(ds: string) {
    ds != [] && forall i :: 0 <= i < |ds| ==> Digit(ds[i])
  }

  lemma NumberPiece(max: nat, u: string) returns (digits: string, s3: string)
    requires Decimal(max, u).Ok?
    ensures AllDigits(digits) && Value(digits) <= max && Decimal(max, u) == Ok(s3, Value(digits))
    ensures |digits| <= |u| && digits == u[..|digits|] && s3 == u[|digits|..]
    ensures s3 == [] || !Digit(s3[0])
  {
    var n := Digits(u);
    digits, s3 := u[..n], u[n..];
  }

  lemma SpellingOfTail(tag: string, max: nat, s: string, front: Spelling) returns (p: Spelling)
    requires ParameterTail(max, s).Ok? && Spells(front, tag)
    ensures p.name == front.name && p.before == front.before && p.afterName == front.afterName
    ensures Spells(p, tag)
    ensures Value(p.digits) == ParameterTail(max, s).value <= max
    ensures s == AfterEquals(p) + ParameterTail(max, s).rest
    ensures EndsBefore(p, ParameterTail(max, s).rest)
  {
    var beforeDigits := BlanksSkipped(s);
    var digits, s3 := NumberPiece(max, Space0(s));
    var afterDigits, semicolon, rest := LastPiece(s3);
    assert ParameterTail(max, s) == Ok(rest, Value(digits));
    p := front.(digits := digits, semicolon := semicolon, beforeDigits := beforeDigits, afterDigits := afterDigits);
    TailComposes(p, rest, s, Space0(s), s3);
    TailEnds(p, rest, s3);
  }

  lemma TailEnds(p: Spelling, rest: string, s3: string)
    requires s3 == p.afterDigits + ((if p.semicolon then ";" else "") + rest)
    requires s3 == [] || !Digit(s3[0])
    requires p.semicolon || rest == [] || (rest[0] != ';' && !Blank(rest[0]))
    ensures EndsBefore(p, rest)
  {
    if p.afterDigits == [] && !p.semicolon {
      assert s3 == rest;
    }
  }

  lemma TailComposes(p: Spelling, rest: string, s: string, u: string, s3: string)
    requires s == p.beforeDigits + u
    requires |p.digits| <= |u| && p.digits == u[..|p.digits|] && s3 == u[|p.digits|..]
    requires s3 == p.afterDigits + ((if p.semicolon then ";" else "") + rest)
    ensures s == AfterEquals(p) + rest
  {
    assert u == p.digits + s3;
    TailRegroups(p, rest);
  }

  lemma TextComposes(p: Spelling, rest: string, s: string, t: string, s1: string, s2: string)
    requires s == p.before + t
    requires |p.name| <= |t| && p.name == t[..|p.name|] && s1 == t[|p.name|..]
    requires s1 == p.afterName + (['='] + s2)
    requires s2 == AfterEquals(p) + rest
    ensures s == Text(p) + rest
  {
    assert t == p.name + s1;
    assert "=" == ['='];
    TextRegroups(p, rest);
  }

  lemma TailRegroups(p: Spelling, rest: string)
    ensures AfterEquals(p) + rest ==
            p.beforeDigits + (p.digits + (p.afterDigits + ((if p.semicolon then ";" else "") + rest)))
  {
  }

  lemma TextRegroups(p: Spelling, rest: string)
    ensures Text(p) + rest == p.before + (p.name + (p.afterName + ("=" + (AfterEquals(p) + rest))))
  {
  }

  lemma HeadPieces(tag: string, max: nat, s: string)
    returns (before: string, name: string, s1: string, afterName: string, s2: string)
    requires Parameter(tag, max, s).Ok?
    ensures Blanks(before) && s == before + Space0(s) && Blanks(afterName)
    ensures |name| == |tag| <= |Space0(s)| && (forall i :: 0 <= i < |tag| ==> Lower(name[i]) == tag[i])
    ensures name == Space0(s)[..|name|] && s1 == Space0(s)[|name|..]
    ensures s1 == afterName + (['='] + s2) && Parameter(tag, max, s) == ParameterTail(max, s2)
  {
    before := BlanksSkipped(s);
    name, s1 := TagMatched(tag, Space0(s));
    afterName := BlanksSkipped(s1);
    s2 := CharMatched('=', Space0(s1));
  }

  /** Whatever is accepted as a parameter is one, written down in some way. */
  lemma SpellingOfParameter(tag: string, max: nat, s: string) returns (p: Spelling)
    requires Parameter(tag, max, s).Ok?
    ensures Spells(p, tag)
    ensures Value(p.digits) == Parameter(tag, max, s).value <= max
    ensures s == Text(p) + Parameter(tag, max, s).rest
    ensures EndsBefore(p, Parameter(tag, max, s).rest)
  {
    var before, name, s1, afterName, s2 := HeadPieces(tag, max, s);
    p := SpellingOfTail(tag, max, s2, Spelling(name, "0", false, before, afterName, "", ""));
    TextComposes(p, ParameterTail(max, s2).rest, s, Space0(s), s1, s2);
  }

  lemma TagMatched(tag: string, t: string) returns (name: string, s1: string)
    requires TagNoCase(tag, t).Ok?
    ensures |tag| <= |t| && name == t[..|tag|] && s1 == t[|tag|..]
    ensures TagNoCase(tag, t) == Ok(s1, ())
    ensures |name| == |tag| && forall i :: 0 <= i < |tag| ==> Lower(name[i]) == tag[i]
  {
    name, s1 := t[..|tag|], t[|tag|..];
  }

  lemma CharMatched(c: char, v: string) returns (s2: string)
    requires Char(c, v).Ok?
    ensures Char(c, v) == Ok(s2, ()) && v == [c] + s2
  {
    s2 := v[1..];
  }

  // ---------------------------------------------------------------------------------
  // The header
  // ---------------------------------------------------------------------------------

  lemma WrongNameIsRefused(tag: string, other: string, max: nat, p: Spelling, rest: string)
    requires Spells(p, other) && tag != [] && other != [] && tag[0] != other[0] && !Blank(other[0])
    ensures Parameter(tag, max, Text(p) + rest) == Error
  {
    var named := p.name + (p.afterName + ("=" + (AfterEquals(p) + rest)));
    TextRegroups(p, rest);
    assert Lower(p.name[0]) == other[0];
    SkipsBlanks(p.before, named);
    assert named[0] == p.name[0];
  }

  predicate Fits(q: Spelling, t: Spelling)
    requires Spells(q, "seq") && Spells(t, "rtptime")
  {
    Value(q.digits) <= MAX16 && Value(t.digits) <= MAX32
  }

  /** Blanks between two parameters can be counted to either of them; this counts them to the
      first one when nothing else separates the two. */
  function Canonical(first: Spelling, second: Spelling): (Spelling, Spelling) {
    if first.semicolon then (first, second)
    else (first.(afterDigits := first.afterDigits + second.before), second.(before := ""))
  }

  lemma CanonicalIsTheSame(first: Spelling, tag1: string, second: Spelling, tag2: string, rest: string)
    requires Spells(first, tag1) && Spells(second, tag2)
    requires tag2 != [] && 'a' <= tag2[0] <= 'z'
    ensures var (f, s) := Canonical(first, second);
            && Spells(f, tag1) && Spells(s, tag2)
            && Text(f) + (Text(s) + rest) == Text(first) + (Text(second) + rest)
            && EndsBefore(f, Text(s) + rest)
            && (EndsBefore(second, rest) ==> EndsBefore(s, rest))
  {
    var (f, s) := Canonical(first, second);
    if !first.semicolon {
      assert Lower(second.name[0]) == tag2[0];
      BlanksMove(first, second, rest);
    }
  }

  lemma BlanksMove(first: Spelling, second: Spelling, rest: string)
    requires !first.semicolon && second.name != []
    ensures var (f, s) := Canonical(first, second);
            && Text(f) + (Text(s) + rest) == Text(first) + (Text(second) + rest)
            && Text(s) + rest != [] && (Text(s) + rest)[0] == second.name[0]
  {
    var (f, s) := Canonical(first, second);
    assert Text(second) == second.before + Text(s);
    assert Text(f) == Text(first) + second.before;
  }

  lemma SequenceFirst(q: Spelling, t: Spelling, rest: string)
    requires Spells(q, "seq") && Spells(t, "rtptime") && EndsBefore(t, rest)
    ensures ParseInfo(Text(q) + (Text(t) + rest)) ==
            if Fits(q, t) then Ok(rest, RtpInfo(Value(q.digits), Value(t.digits))) else Error
  {
    var (f, s) := Canonical(q, t);
    CanonicalIsTheSame(q, "seq", t, "rtptime", rest);
    ParameterReadsSpelling("seq", MAX16, f, Text(s) + rest);
    ParameterReadsSpelling("rtptime", MAX32, s, rest);
    WrongNameIsRefused("rtptime", "seq", MAX32, f, Text(s) + rest);
  }

  lemma TimeFirst(q: Spelling, t: Spelling, rest: string)
    requires Spells(q, "seq") && Spells(t, "rtptime") && EndsBefore(q, rest)
    ensures ParseInfo(Text(t) + (Text(q) + rest)) ==
            if Fits(q, t) then Ok(rest, RtpInfo(Value(q.digits), Value(t.digits))) else Error
  {
    var (f, s) := Canonical(t, q);
    CanonicalIsTheSame(t, "rtptime", q, "seq", rest);
    WrongNameIsRefused("seq", "rtptime", MAX16, f, Text(s) + rest);
    ParameterReadsSpelling("rtptime", MAX32, f, Text(s) + rest);
    ParameterReadsSpelling("seq", MAX16, s, rest);
  }

  /** Round trip: the two parameters in either order, in any case, with any blanks and with or
      without semicolons, give back the two numbers, or an error when one is out of range. */
  lemma InfoReadsSpellings(q: Spelling, t: Spelling, rest: string)
    requires Spells(q, "seq") && Spells(t, "rtptime")
    ensures EndsBefore(t, rest) ==>
              ParseInfo(Text(q) + (Text(t) + rest)) ==
              if Fits(q, t) then Ok(rest, RtpInfo(Value(q.digits), Value(t.digits))) else Error
    ensures EndsBefore(q, rest) ==>
              ParseInfo(Text(t) + (Text(q) + rest)) ==
              if Fits(q, t) then Ok(rest, RtpInfo(Value(q.digits), Value(t.digits))) else Error
  {
    if EndsBefore(t, rest) {
      SequenceFirst(q, t, rest);
    }
    if EndsBefore(q, rest) {
      TimeFirst(q, t, rest);
    }
  }

  /** The input is these two parameters, in one order or the other, and then the rest. */
  predicate IsWritten(s: string, rest: string, info: RtpInfo, q: Spelling, t: Spelling) {
    && Spells(q, "seq") && Spells(t, "rtptime") && Fits(q, t)
    && info == RtpInfo(Value(q.digits), Value(t.digits))
    && ((s == Text(q) + (Text(t) + rest) && EndsBefore(t, rest)) ||
        (s == Text(t) + (Text(q) + rest) && EndsBefore(q, rest)))
  }

  lemma AcceptedIsWritten(s: string, rest: string, info: RtpInfo) returns (q: Spelling, t: Spelling)
    requires ParseInfo(s) == Ok(rest, info)
    ensures IsWritten(s, rest, info, q, t)
  {
    if Parameter("seq", MAX16, s).Ok? {
      q := SpellingOfParameter("seq", MAX16, s);
      t := SpellingOfParameter("rtptime", MAX32, Parameter("seq", MAX16, s).rest);
    } else {
      t := SpellingOfParameter("rtptime", MAX32, s);
      q := SpellingOfParameter("seq", MAX16, Parameter("rtptime", MAX32, s).rest);
    }
  }

  /** The parser accepts exactly what can be written down as the two parameters, and reads it right. */
  lemma ParserIsExact(s: string, rest: string, info: RtpInfo)
    ensures ParseInfo(s) == Ok(rest, info) <==> exists q, t :: IsWritten(s, rest, info, q, t)
  {
    if ParseInfo(s) == Ok(rest, info) {
      var q, t := AcceptedIsWritten(s, rest, info);
    }
    forall q, t | IsWritten(s, rest, info, q, t)
      ensures ParseInfo(s) == Ok(rest, info)
    {
      InfoReadsSpellings(q, t, rest);
    }
  }

  // ---------------------------------------------------------------------------------
  // Printed numbers
  // ---------------------------------------------------------------------------------

  function Print(n: nat): (ds: string)
    ensures ds != [] && forall i :: 0 <= i < |ds| ==> Digit(ds[i])
  {
    (if n < 10 then "" else Print(n / 10)) + [(n % 10 + '0' as int) as char]
  }

  lemma {:induction false} PrintedNumberIsRead(n: nat)
    ensures Value(Print(n)) == n
  {
    var ds := Print(n);
    if n >= 10 {
      PrintedNumberIsRead(n / 10);
      assert ds[..|ds| - 1] == Print(n / 10);
    } else {
      assert ds[..|ds| - 1] == [];
    }
  }

  /** Every pair of a 16-bit and a 32-bit number, printed in either order with any spelling of the
      names, any blanks and any semicolons, is read back; a pair with a larger number is refused. */
  lemma PrintedInfoIsRead(info: RtpInfo, q: Spelling, t: Spelling, rest: string)
    requires Spells(q, "seq") && q.digits == Print(info.sequence)
    requires Spells(t, "rtptime") && t.digits == Print(info.rtptime)
    ensures var read := if info.sequence < 65536 && info.rtptime < 0x1_0000_0000 then Ok(rest, info) else Error;
            && (EndsBefore(t, rest) ==> ParseInfo(Text(q) + (Text(t) + rest)) == read)
            && (EndsBefore(q, rest) ==> ParseInfo(Text(t) + (Text(q) + rest)) == read)
  {
    PrintedNumberIsRead(info.sequence);
    PrintedNumberIsRead(info.rtptime);
    InfoReadsSpellings(q, t, rest);
  }

  /** Only spaces and tabs. */
  predicate SpacesAndTabs(s: string) {
    forall c :: c in s ==> c == ' ' || c == '\t'
  }

  lemma BlanksAreSpacesAndTabs(s: string)
    ensures Blanks(s) <==> SpacesAndTabs(s)
  {
    if Blanks(s) {
      forall c | c in s
        ensures c == ' ' || c == '\t'
      {
        var i :| 0 <= i < |s| && s[i] == c;
        assert Blank(s[i]);
      }
    } else {
      var i :| 0 <= i < |s| && !Blank(s[i]);
      assert s[i] in s;
    }
  }

  predicate DecimalDigits(s: string) {
    s != [] && forall c :: c in s ==> '0' <= c <= '9'
  }

  lemma DigitsAreDecimal(s: string)
    ensures s != [] && (forall i :: 0 <= i < |s| ==> Digit(s[i])) <==> DecimalDigits(s)
  {
    if s != [] && forall i :: 0 <= i < |s| ==> Digit(s[i]) {
      forall c | c in s
        ensures '0' <= c <= '9'
      {
        var i :| 0 <= i < |s| && s[i] == c;
        assert Digit(s[i]);
      }
    } else if s != [] {
      var i :| 0 <= i < |s| && !Digit(s[i]);
      assert s[i] in s;
    }
  }

  /** The small letters of a name, each also as a capital. */
  predicate InAnyCase(name: string, small: string, capital: string) {
    && |name| == |small| == |capital|
    && forall i :: 0 <= i < |small| ==> name[i] == small[i] || name[i] == capital[i]
  }

  lemma NameInAnyCase(name: string, small: string, capital: string)
    requires |small| == |capital|
    requires forall i :: 0 <= i < |small| ==>
               'a' <= small[i] <= 'z' && small[i] as int == capital[i] as int + 32
    ensures |name| == |small| && (forall i :: 0 <= i < |small| ==> Lower(name[i]) == small[i]) <==>
            InAnyCase(name, small, capital)
  {
  }

  /** What counts as a spelling, letter by letter: the name in any mixture of small letters and capitals,
      decimal digits, and spaces and tabs in the four gaps. */
  lemma SpellingsAre(p: Spelling)
    ensures var rest := DecimalDigits(p.digits) && SpacesAndTabs(p.before) && SpacesAndTabs(p.afterName) &&
                        SpacesAndTabs(p.beforeDigits) && SpacesAndTabs(p.afterDigits);
            && (Spells(p, "seq") <==> InAnyCase(p.name, "seq", "SEQ") && rest)
            && (Spells(p, "rtptime") <==> InAnyCase(p.name, "rtptime", "RTPTIME") && rest)
  {
    NameInAnyCase(p.name, "seq", "SEQ");
    NameInAnyCase(p.name, "rtptime", "RTPTIME");
    DigitsAreDecimal(p.digits);
    BlanksAreSpacesAndTabs(p.before);
    BlanksAreSpacesAndTabs(p.afterName);
    BlanksAreSpacesAndTabs(p.beforeDigits);
    BlanksAreSpacesAndTabs(p.afterDigits);
  }

  lemma ValueOfTwo(a: char, b: char)
    requires '0' <= a <= '9' && '0' <= b <= '9'
    ensures Value([a]) == a as int - '0' as int
    ensures Value([a, b]) == 10 * (a as int - '0' as int) + (b as int - '0' as int)
  {
    assert Digit(a) && Digit(b);
    assert Value([a]) == 10 * Value([]) + (a as int - '0' as int);
    assert [a, b][..1] == [a];
  }

  lemma TextsAreRead(q: Spelling, t: Spelling, first: string, second: string)
    requires Spells(q, "seq") && Spells(t, "rtptime") && Text(q) == first && Text(t) == second
    requires Value(q.digits) < 65536 && Value(t.digits) < 0x1_0000_0000
    ensures ParseInfo(first + second) == Ok("", RtpInfo(Value(q.digits), Value(t.digits)))
  {
    InfoReadsSpellings(q, t, "");
    assert second + "" == second;
  }

  lemma SequenceOfTheHeader() returns (q: Spelling)
    ensures Spells(q, "seq") && Text(q) == "Seq =\t12;" && Value(q.digits) == 12
  {
    q := Spelling("Seq", ['1', '2'], true, "", " ", "\t", "");
    SpellingsAre(q);
    ValueOfTwo('1', '2');
  }

  lemma TimeOfTheHeader() returns (t: Spelling)
    ensures Spells(t, "rtptime") && Text(t) == "RTPTIME=34" && Value(t.digits) == 34
  {
    t := Spelling("RTPTIME", ['3', '4'], false, "", "", "", "");
    SpellingsAre(t);
    ValueOfTwo('3', '4');
  }

  /** A header as a sender may write it. */
  lemma HeaderIsRead()
    ensures ParseInfo("Seq =\t12;" + "RTPTIME=34") == Ok("", RtpInfo(12, 34))
  {
    var q := SequenceOfTheHeader();
    var t := TimeOfTheHeader();
    TextsAreRead(q, t, "Seq =\t12;", "RTPTIME=34");
  }
}
