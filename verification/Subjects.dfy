/** Command and event coordinates, their six-token subjects and the event subject parser. */
module Subjects {
  import opened Wrappers
  import opened Text

  const INTEGRATION_PREFIX: string := "integration"
  const CMD_TOKEN: string := "cmd"
  const EVT_TOKEN: string := "evt"

  type U8 = x: int | 0 <= x < 256

  datatype Role = Bc | Aggregate | Verb | PastFact

  datatype CoordError = Empty(role: Role) | InvalidChar(role: Role, value: string)

  predicate CoordChar(c: char) {
    'A' <= c <= 'Z' || 'a' <= c <= 'z' || '0' <= c <= '9' || c == '-' || c == '_'
  }

  function CoordFault(role: Role, value: string): Option<CoordError> {
    if value == "" then Some(Empty(role))
    else if exists i :: 0 <= i < |value| && !CoordChar(value[i]) then Some(InvalidChar(role, value))
    else None
  }

  predicate ValidCoord(value: string) {
    value != "" && forall i :: 0 <= i < |value| ==> CoordChar(value[i])
  }

  /** A coordinate is a non-empty run of letters, digits, dashes and underscores; a bad one is
      reported with its role, and with its text unless it is empty. */
  lemma CoordGrammar(role: Role, value: string)
    ensures CoordFault(role, value).None? <==>
            value != "" && forall i :: 0 <= i < |value| ==>
              'A' <= value[i] <= 'Z' || 'a' <= value[i] <= 'z' || '0' <= value[i] <= '9' || value[i] in {'-', '_'}
    ensures CoordFault(role, value) in {None, Some(Empty(role)), Some(InvalidChar(role, value))}
    ensures CoordFault(role, value) == Some(Empty(role)) <==> value == ""
    ensures ValidCoord(value) <==> CoordFault(role, value).None?
  {}

  datatype CommandCoords = CommandCoords(receiver: string, aggregate: string, verb: string, version: U8) {
    predicate Valid() {
      ValidCoord(receiver) && ValidCoord(aggregate) && ValidCoord(verb)
    }
  }

  datatype EventCoords = EventCoords(producer: string, aggregate: string, fact: string, version: U8) {
    predicate Valid() {
      ValidCoord(producer) && ValidCoord(aggregate) && ValidCoord(fact)
    }
  }

  // ----- decimal text of a version -----

  function Digit(d: nat): char
    requires d < 10
  {
    '0' + d as char
  }

  predicate IsDigit(c: char) {
    '0' <= c <= '9'
  }

  function DigitValue(c: char): nat
    requires IsDigit(c)
  {
    (c - '0') as nat
  }

  function Decimal(n: nat): string {
    if n < 10 then [Digit(n)] else Decimal(n / 10) + [Digit(n % 10)]
  }

  predicate AllDigits(text: string) {
    forall i :: 0 <= i < |text| ==> IsDigit(text[i])
  }

  function Value(text: string): nat
    requires AllDigits(text)
  {
    if text == "" then 0 else 10 * Value(text[..|text| - 1]) + DigitValue(text[|text| - 1])
  }

  /** An unsigned byte in decimal: an optional plus sign, then digits, at most 255. */
  function ParseU8(text: string): Option<U8> {
    var digits := if text != "" && text[0] == '+' then text[1..] else text;
    if digits == "" || !AllDigits(digits) || Value(digits) > 255 then None else Some(Value(digits))
  }

  /** Which texts are versions: one or more digits, behind at most one plus sign, worth at most 255. */
  lemma VersionGrammar(digits: string)
    requires digits != "" && AllDigits(digits)
    ensures ParseU8(digits) == ParseU8("+" + digits) == if Value(digits) <= 255 then Some(Value(digits)) else None
    ensures ParseU8("") == ParseU8("+") == None
    ensures forall text :: ParseU8(text).Some? ==>
              (text != "" && AllDigits(text)) || (|text| > 1 && text[0] == '+' && AllDigits(text[1..]))
  {
    assert ("+" + digits)[1..] == digits;
  }

  /** The text that rendering produces: no sign and no leading zero. */
  predicate Canonical(text: string) {
    text != "" && AllDigits(text) && (|text| == 1 || text[0] != '0')
  }

  lemma {:induction false} DecimalValue(n: nat)
    ensures Canonical(Decimal(n)) && Value(Decimal(n)) == n
    ensures n > 0 ==> Decimal(n)[0] != '0'
  {
    if n >= 10 {
      DecimalValue(n / 10);
      var text := Decimal(n);
      assert text[..|text| - 1] == Decimal(n / 10);
    }
  }

  lemma {:induction false} CanonicalDecimal(text: string)
    requires Canonical(text)
    ensures Decimal(Value(text)) == text
    ensures text[0] != '0' ==> Value(text) > 0
  {
    var n := |text| - 1;
    if n == 0 {
      assert text[..0] == "";
    } else {
      CanonicalDecimal(text[..n]);
    }
  }

  lemma ParseU8OfDecimal(v: U8)
    ensures ParseU8(Decimal(v)) == Some(v)
  {
    DecimalValue(v);
  }

  // ----- rendering -----

  function Dotted(head: string, tail: string): string {
    head + "." + tail
  }

  function Subject(token: string, a: string, b: string, c: string, version: U8): string {
    Dotted(INTEGRATION_PREFIX, Dotted(token, Dotted(a, Dotted(b, Dotted(c, "v" + Decimal(version))))))
  }

  function CommandSubject(c: CommandCoords): string {
    Subject(CMD_TOKEN, c.receiver, c.aggregate, c.verb, c.version)
  }

  function EventSubject(c: EventCoords): string {
    Subject(EVT_TOKEN, c.producer, c.aggregate, c.fact, c.version)
  }

  datatype ParseError = Shape | Version(segment: string) | Coord(error: CoordError)

  function ParseEventSubject(subject: string): Result<EventCoords, ParseError> {
    var parts := Split(subject, '.');
    if |parts| != 6 || parts[0] != INTEGRATION_PREFIX || parts[1] != EVT_TOKEN then Err(Shape)
    else
      var text := parts[5];
      var version := if text != "" && text[0] == 'v' then ParseU8(text[1..]) else None;
      if version.None? then Err(Version(text))
      else if CoordFault(Bc, parts[2]).Some? then Err(Coord(CoordFault(Bc, parts[2]).value))
      else if CoordFault(Aggregate, parts[3]).Some? then Err(Coord(CoordFault(Aggregate, parts[3]).value))
      else if CoordFault(PastFact, parts[4]).Some? then Err(Coord(CoordFault(PastFact, parts[4]).value))
      else Ok(EventCoords(parts[2], parts[3], parts[4], version.value))
  }

  lemma CoordIsDotFree(value: string)
    requires ValidCoord(value)
    ensures '.' !in value
  {}

  lemma SplitDotted(head: string, tail: string)
    requires '.' !in head
    ensures Split(Dotted(head, tail), '.') == [head] + Split(tail, '.')
  {
    SplitHead(head, tail, '.');
    assert head + ['.'] + tail == Dotted(head, tail);
  }

  /** Six dot-free tokens joined by dots split into those tokens. */
  lemma SixTokens(token: string, a: string, b: string, c: string, v: string)
    requires '.' !in token && '.' !in a && '.' !in b && '.' !in c && '.' !in v
    ensures Split(Dotted(INTEGRATION_PREFIX, Dotted(token, Dotted(a, Dotted(b, Dotted(c, v))))), '.')
            == [INTEGRATION_PREFIX, token, a, b, c, v]
  {
    hide Split, Dotted;
    SplitWhole(v, '.');
    SplitDotted(c, v);
    SplitDotted(b, Dotted(c, v));
    SplitDotted(a, Dotted(b, Dotted(c, v)));
    SplitDotted(token, Dotted(a, Dotted(b, Dotted(c, v))));
    SplitDotted(INTEGRATION_PREFIX, Dotted(token, Dotted(a, Dotted(b, Dotted(c, v)))));
  }

  /** The tokens of a rendered subject are the ones that went in. */
  lemma SubjectTokens(token: string, a: string, b: string, c: string, version: U8)
    requires token in {CMD_TOKEN, EVT_TOKEN} && ValidCoord(a) && ValidCoord(b) && ValidCoord(c)
    ensures Split(Subject(token, a, b, c, version), '.')
            == [INTEGRATION_PREFIX, token, a, b, c, "v" + Decimal(version)]
  {
    hide Split, Decimal, Dotted;
    DecimalValue(version);
    CoordIsDotFree(a);
    CoordIsDotFree(b);
    CoordIsDotFree(c);
    SixTokens(token, a, b, c, "v" + Decimal(version));
  }

  /** Parsing a rendered event gives the coordinates back. */
  lemma ParseOfRender(c: EventCoords)
    requires c.Valid()
    ensures ParseEventSubject(EventSubject(c)) == Ok(c)
  {
    SubjectTokens(EVT_TOKEN, c.producer, c.aggregate, c.fact, c.version);
    ParseU8OfDecimal(c.version);
    assert ("v" + Decimal(c.version))[1..] == Decimal(c.version);
  }

  /** Rendering the coordinates of a parsed subject gives that subject back exactly when its
      version text is canonical: `v007` and `v+7` parse too, but render as `v7`. */
  lemma RenderOfParse(subject: string)
    requires ParseEventSubject(subject).Ok?
    ensures ParseEventSubject(subject).value.Valid()
    ensures EventSubject(ParseEventSubject(subject).value) == subject
            <==> Canonical(Split(subject, '.')[5][1..])
  {
    var parts := Split(subject, '.');
    var c := ParseEventSubject(subject).value;
    var text := parts[5][1..];
    assert parts[5] == "v" + text;
    SubjectTokens(EVT_TOKEN, c.producer, c.aggregate, c.fact, c.version);
    DecimalValue(c.version);
    var again := Split(EventSubject(c), '.');
    if Canonical(text) {
      CanonicalDecimal(text);
      assert again == parts;
      JoinOfSplit(subject, '.');
      JoinOfSplit(EventSubject(c), '.');
    }
    if EventSubject(c) == subject {
      assert again[5] == parts[5];
      assert ("v" + Decimal(c.version))[1..] == Decimal(c.version);
    }
  }

  /** What a subject of six tokens parses to: the prefix and the kind come first, then the version,
      then the coordinates from left to right, each fault with its place. */
  lemma ParseReports(subject: string, head: string, token: string, a: string, b: string, c: string, v: string)
    requires Split(subject, '.') == [head, token, a, b, c, v]
    ensures ParseEventSubject(subject) ==
            if head != "integration" || token != "evt" then Err(Shape)
            else if v == "" || v[0] != 'v' || ParseU8(v[1..]).None? then Err(Version(v))
            else if CoordFault(Bc, a).Some? then Err(Coord(CoordFault(Bc, a).value))
            else if CoordFault(Aggregate, b).Some? then Err(Coord(CoordFault(Aggregate, b).value))
            else if CoordFault(PastFact, c).Some? then Err(Coord(CoordFault(PastFact, c).value))
            else Ok(EventCoords(a, b, c, ParseU8(v[1..]).value))
  {}

  lemma NonCanonicalVersions()
    ensures ParseU8("007") == Some(7) && ParseU8("+7") == Some(7) && Decimal(7) == "7"
    ensures !Canonical("007") && !Canonical("+7")
  {
    assert "007"[..2] == "00" && "00"[..1] == "0" && "0"[..0] == "";
    assert Value("0") == 0 && Value("00") == 0 && Value("007") == 7;
    assert "+7"[1..] == "7" && "7"[..0] == "";
  }

  lemma WrittenOut(text: string)
    ensures Dotted("integration", Dotted("evt", Dotted("a", Dotted("b", Dotted("c", "v" + text)))))
            == "integration.evt.a.b.c.v" + text
  {
    assert Dotted("c", "v" + text) == "c.v" + text;
    assert Dotted("b", "c.v" + text) == "b.c.v" + text;
    assert Dotted("a", "b.c.v" + text) == "a.b.c.v" + text;
    assert Dotted("evt", "a.b.c.v" + text) == "evt.a.b.c.v" + text;
    assert Dotted("integration", "evt.a.b.c.v" + text) == "integration.evt.a.b.c.v" + text;
  }

  /** Two subjects that parse to the same event, neither of which it renders to. */
  lemma NonCanonicalExample(text: string)
    requires text in {"007", "+7"}
    ensures var subject := "integration.evt.a.b.c.v" + text;
            && ParseEventSubject(subject) == Ok(EventCoords("a", "b", "c", 7))
            && EventSubject(EventCoords("a", "b", "c", 7)) != subject
  {
    NonCanonicalVersions();
    WrittenOut(text);
    SixTokens("evt", "a", "b", "c", "v" + text);
    ParsedFromTokens("integration.evt.a.b.c.v" + text, text);
  }

  lemma ParsedFromTokens(subject: string, text: string)
    requires Split(subject, '.') == [INTEGRATION_PREFIX, EVT_TOKEN, "a", "b", "c", "v" + text]
    requires ParseU8(text) == Some(7) && !Canonical(text)
    ensures ParseEventSubject(subject) == Ok(EventCoords("a", "b", "c", 7))
    ensures EventSubject(EventCoords("a", "b", "c", 7)) != subject
  {
    hide Split, Dotted, ParseU8, Canonical, EventSubject;
    assert ("v" + text)[1..] == text;
    assert ValidCoord("a") && ValidCoord("b") && ValidCoord("c");
    RenderOfParse(subject);
  }

  /** Two subjects are equal only if the kind and every coordinate are: rendering is
      injective, and no command subject is an event subject. */
  lemma SubjectInjective(t1: string, a1: string, b1: string, c1: string, v1: U8,
                         t2: string, a2: string, b2: string, c2: string, v2: U8)
    requires t1 in {CMD_TOKEN, EVT_TOKEN} && ValidCoord(a1) && ValidCoord(b1) && ValidCoord(c1)
    requires t2 in {CMD_TOKEN, EVT_TOKEN} && ValidCoord(a2) && ValidCoord(b2) && ValidCoord(c2)
    requires Subject(t1, a1, b1, c1, v1) == Subject(t2, a2, b2, c2, v2)
    ensures (t1, a1, b1, c1, v1) == (t2, a2, b2, c2, v2)
  {
    SubjectTokens(t1, a1, b1, c1, v1);
    SubjectTokens(t2, a2, b2, c2, v2);
    var left := [INTEGRATION_PREFIX, t1, a1, b1, c1, "v" + Decimal(v1)];
    var right := [INTEGRATION_PREFIX, t2, a2, b2, c2, "v" + Decimal(v2)];
    assert left[1] == right[1] && left[2] == right[2] && left[3] == right[3] && left[4] == right[4];
    assert left[5] == right[5];
    assert left[5][1..] == Decimal(v1) && right[5][1..] == Decimal(v2);
    DecimalValue(v1);
    DecimalValue(v2);
  }

  lemma SubjectsDistinct(x: CommandCoords, y: CommandCoords, e: EventCoords, f: EventCoords)
    requires x.Valid() && y.Valid() && e.Valid() && f.Valid()
    ensures CommandSubject(x) == CommandSubject(y) <==> x == y
    ensures EventSubject(e) == EventSubject(f) <==> e == f
    ensures CommandSubject(x) != EventSubject(e)
  {
    if CommandSubject(x) == CommandSubject(y) {
      SubjectInjective(CMD_TOKEN, x.receiver, x.aggregate, x.verb, x.version,
                       CMD_TOKEN, y.receiver, y.aggregate, y.verb, y.version);
    }
    if EventSubject(e) == EventSubject(f) {
      SubjectInjective(EVT_TOKEN, e.producer, e.aggregate, e.fact, e.version,
                       EVT_TOKEN, f.producer, f.aggregate, f.fact, f.version);
    }
    if CommandSubject(x) == EventSubject(e) {
      SubjectInjective(CMD_TOKEN, x.receiver, x.aggregate, x.verb, x.version,
                       EVT_TOKEN, e.producer, e.aggregate, e.fact, e.version);
    }
  }
}
