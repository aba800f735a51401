/** The gate in front of the signer: a byte scanner over a JSON object that decides which domain may
sign a message.
*/
module SignerGate {
  import opened Bytes

  const QUOTE := '"' as int
  const BACKSLASH := '\\' as int
  const OPEN_BRACE := '{' as int
  const CLOSE_BRACE := '}' as int
  const OPEN_BRACKET := '[' as int
  const CLOSE_BRACKET := ']' as int
  const COMMA := ',' as int
  const COLON := ':' as int
  const LETTER_U := 'u' as int
  const LINE_FEED := 10
  const MAXIMUM_DEPTH := 64
  const MAXIMUM_MESSAGE := 262144

  // ---------------------------------------------------------------- the scanner, on the rest of the message

  predicate IsHexDigit(b: Byte) {
    '0' as int <= b <= '9' as int || 'a' as int <= b <= 'f' as int || 'A' as int <= b <= 'F' as int
  }

  predicate IsSimpleEscape(b: Byte) {
    b == QUOTE || b == BACKSLASH || b == '/' as int || b == 'b' as int || b == 'f' as int || b == 'n' as int
    || b == 'r' as int || b == 't' as int
  }

  /** The rest after a two-byte or six-byte escape, which starts s. */
  function SkipEscape(s: seq<Byte>): (r: Option<seq<Byte>>)
    ensures r.Some? ==> |r.value| < |s|
  {
    if |s| < 2 then None
    else if s[1] == LETTER_U then
      if |s| >= 6 && IsHexDigit(s[2]) && IsHexDigit(s[3]) && IsHexDigit(s[4]) && IsHexDigit(s[5]) then Some(s[6..])
      else None
    else if IsSimpleEscape(s[1]) then Some(s[2..]) else None
  }

  /** The rest after the closing quote of a string whose opening quote is behind us. */
  function SkipUnits(s: seq<Byte>): (r: Option<seq<Byte>>)
    ensures r.Some? ==> |r.value| < |s|
    decreases |s|
  {
    if s == [] then None
    else if s[0] == QUOTE then Some(s[1..])
    else if s[0] < 0x20 then None
    else if s[0] == BACKSLASH then
      var rest :- SkipEscape(s);
      SkipUnits(rest)
    else SkipUnits(s[1..])
  }

  function SkipString(s: seq<Byte>): (r: Option<seq<Byte>>)
    ensures r.Some? ==> |r.value| + 2 <= |s|
  {
    if s == [] || s[0] != QUOTE then None else SkipUnits(s[1..])
  }

  predicate IsOpener(b: Byte) {
    b == OPEN_BRACE || b == OPEN_BRACKET
  }

  predicate IsCloser(b: Byte) {
    b == CLOSE_BRACE || b == CLOSE_BRACKET
  }

  function Closer(opener: Byte): Byte {
    if opener == OPEN_BRACE then CLOSE_BRACE else CLOSE_BRACKET
  }

  /** The rest after the last of the given closers; the innermost is the last of the sequence. */
  function SkipNest(s: seq<Byte>, closing: seq<Byte>): (r: Option<seq<Byte>>)
    ensures r.Some? ==> |r.value| <= |s|
    decreases |s|
  {
    if closing == [] then Some(s)
    else if s == [] then None
    else if s[0] == QUOTE then
      var rest :- SkipString(s);
      SkipNest(rest, closing)
    else if IsOpener(s[0]) then
      if |closing| == MAXIMUM_DEPTH then None else SkipNest(s[1..], closing + [Closer(s[0])])
    else if IsCloser(s[0]) then
      if s[0] != closing[|closing| - 1] then None else SkipNest(s[1..], closing[..|closing| - 1])
    else if s[0] <= 0x20 then None
    else SkipNest(s[1..], closing)
  }

  predicate IsPrimitive(b: Byte) {
    '0' as int <= b <= '9' as int || 'a' as int <= b <= 'z' as int || b == '-' as int || b == '+' as int
    || b == '.' as int
  }

  function SkipPrimitive(s: seq<Byte>): (r: Option<seq<Byte>>)
    ensures r.Some? ==> |r.value| <= |s|
  {
    if s == [] || s[0] == COMMA || s[0] == CLOSE_BRACE then Some(s)
    else if IsPrimitive(s[0]) then SkipPrimitive(s[1..])
    else None
  }

  function SkipValue(s: seq<Byte>): (r: Option<seq<Byte>>)
    ensures r.Some? ==> |r.value| < |s|
  {
    if s == [] then None
    else if s[0] == QUOTE then SkipString(s)
    else if IsOpener(s[0]) then SkipNest(s[1..], [Closer(s[0])])
    else if !IsPrimitive(s[0]) then None
    else SkipPrimitive(s[1..])
  }

  /** A top-level field: the bytes between the key's quotes and the bytes of the value. */
  datatype Field = Field(key: seq<Byte>, value: seq<Byte>)

  /** The fields of an object from after its opening brace; no rule is involved. */
  function Fields(s: seq<Byte>): (r: Option<seq<Field>>)
    decreases |s|
  {
    var afterKey :- SkipString(s);
    if afterKey == [] || afterKey[0] != COLON then None
    else
      var afterColon := afterKey[1..];
      var rest :- SkipValue(afterColon);
      var field := Field(s[1..|s| - |afterKey| - 1], afterColon[..|afterColon| - |rest|]);
      if |rest| == 1 then Some([field])
      else if |rest| < 3 || rest[0] != COMMA then None
      else
        var more :- Fields(rest[1..]);
        Some([field] + more)
  }

  /** The fields of a whole message: an object, its closing brace last, then a line feed. */
  function MessageFields(message: seq<Byte>): Option<seq<Field>> {
    var n := |message|;
    if n < 4 || message[n - 1] != LINE_FEED || message[0] != OPEN_BRACE || message[n - 2] != CLOSE_BRACE then None
    else Fields(message[1..n - 1])
  }

  datatype Rule = Rule(key: seq<Byte>, value: seq<Byte>)

  predicate MatchesKey(f: Field, rule: Rule) {
    BACKSLASH !in f.key && f.key == rule.key
  }

  /** Exactly one field has the rule's key, and that field has the rule's value. */
  ghost predicate UniqueField(fields: seq<Field>, rule: Rule) {
    exists k :: 0 <= k < |fields| && MatchesKey(fields[k], rule) && fields[k].value == rule.value
                && forall j :: 0 <= j < |fields| && MatchesKey(fields[j], rule) ==> j == k
  }

  ghost predicate Accepts(message: seq<Byte>, rule: Rule) {
    MessageFields(message).Some? && UniqueField(MessageFields(message).value, rule)
  }

  // ---------------------------------------------------------------- compact JSON, printed before a rest

  /** One unit of a string as section 7 of RFC 8259 writes it. */
  datatype Unit = Plain(b: Byte) | Escaped(b: Byte) | Unicode(h: seq<Byte>)

  predicate IsUnit(u: Unit) {
    match u
    case Plain(b) => b >= 0x20 && b != QUOTE && b != BACKSLASH
    case Escaped(b) => IsSimpleEscape(b)
    case Unicode(h) => |h| == 4 && forall i :: 0 <= i < 4 ==> IsHexDigit(h[i])
  }

  predicate IsText(us: seq<Unit>) {
    forall i :: 0 <= i < |us| ==> IsUnit(us[i])
  }

  function PrintUnit(u: Unit, rest: seq<Byte>): seq<Byte> {
    match u
    case Plain(b) => [b] + rest
    case Escaped(b) => [BACKSLASH, b] + rest
    case Unicode(h) => [BACKSLASH, LETTER_U] + (h + rest)
  }

  function PrintUnits(us: seq<Unit>, rest: seq<Byte>): seq<Byte> {
    if us == [] then rest else PrintUnit(us[0], PrintUnits(us[1..], rest))
  }

  function PrintText(us: seq<Unit>, rest: seq<Byte>): seq<Byte> {
    [QUOTE] + PrintUnits(us, [QUOTE] + rest)
  }

  datatype Json = Text(us: seq<Unit>) | Primitive(bytes: seq<Byte>) | Array(items: Items) | Object(members: Members)

  datatype Items = NoItems | Item(head: Json, tail: Items)

  datatype Members = NoMembers | Member(key: seq<Unit>, value: Json, tail: Members)

  predicate IsJson(v: Json) {
    match v
    case Text(us) => IsText(us)
    case Primitive(bytes) => bytes != [] && forall i :: 0 <= i < |bytes| ==> IsPrimitive(bytes[i])
    case Array(items) => AreItems(items)
    case Object(members) => AreMembers(members)
  }

  predicate AreItems(items: Items) {
    items.NoItems? || (IsJson(items.head) && AreItems(items.tail))
  }

  predicate AreMembers(members: Members) {
    members.NoMembers? || (IsText(members.key) && IsJson(members.value) && AreMembers(members.tail))
  }

  function Print(v: Json, rest: seq<Byte>): seq<Byte> {
    match v
    case Text(us) => PrintText(us, rest)
    case Primitive(bytes) => bytes + rest
    case Array(items) => [OPEN_BRACKET] + PrintItems(items, [CLOSE_BRACKET] + rest)
    case Object(members) => [OPEN_BRACE] + PrintMembers(members, [CLOSE_BRACE] + rest)
  }

  function PrintItems(items: Items, rest: seq<Byte>): seq<Byte> {
    match items
    case NoItems => rest
    case Item(head, NoItems) => Print(head, rest)
    case Item(head, tail) => Print(head, [COMMA] + PrintItems(tail, rest))
  }

  function PrintMembers(members: Members, rest: seq<Byte>): seq<Byte> {
    match members
    case NoMembers => rest
    case Member(key, value, NoMembers) => PrintText(key, [COLON] + Print(value, rest))
    case Member(key, value, tail) => PrintText(key, [COLON] + Print(value, [COMMA] + PrintMembers(tail, rest)))
  }

  function Max(a: nat, b: nat): nat {
    if a < b then b else a
  }

  /** How many containers deep a value is. */
  function Depth(v: Json): nat {
    match v
    case Text(_) => 0
    case Primitive(_) => 0
    case Array(items) => 1 + ItemsDepth(items)
    case Object(members) => 1 + MembersDepth(members)
  }

  function ItemsDepth(items: Items): nat {
    if items.NoItems? then 0 else Max(Depth(items.head), ItemsDepth(items.tail))
  }

  function MembersDepth(members: Members): nat {
    if members.NoMembers? then 0 else Max(Depth(members.value), MembersDepth(members.tail))
  }

  // ---------------------------------------------------------------- skipping what was printed

  lemma {:induction false} UnitsSkipped(us: seq<Unit>, rest: seq<Byte>)
    requires IsText(us)
    ensures SkipUnits(PrintUnits(us, [QUOTE] + rest)) == Some(rest)
  {
    if us != [] {
      UnitsSkipped(us[1..], rest);
      UnitSkipped(us[0], PrintUnits(us[1..], [QUOTE] + rest));
    }
  }

  lemma UnitSkipped(u: Unit, rest: seq<Byte>)
    requires IsUnit(u)
    ensures SkipUnits(PrintUnit(u, rest)) == SkipUnits(rest)
  {
    var s := PrintUnit(u, rest);
    match u
    case Plain(b) => assert s[1..] == rest;
    case Escaped(b) => assert s[2..] == rest;
    case Unicode(h) => assert s[6..] == rest && s[2] == h[0] && s[3] == h[1] && s[4] == h[2] && s[5] == h[3];
  }

  lemma TextSkipped(us: seq<Unit>, rest: seq<Byte>)
    requires IsText(us)
    ensures SkipString(PrintText(us, rest)) == Some(rest)
  {
    hide SkipUnits;
    UnitsSkipped(us, rest);
    assert PrintText(us, rest)[1..] == PrintUnits(us, [QUOTE] + rest);
  }

  /** A byte that neither opens, closes nor quotes is passed over inside a container. */
  lemma OrdinarySkipped(b: Byte, rest: seq<Byte>, closing: seq<Byte>)
    requires closing != [] && b > 0x20 && b != QUOTE && !IsOpener(b) && !IsCloser(b)
    ensures SkipNest([b] + rest, closing) == SkipNest(rest, closing)
  {
  }

  lemma {:induction false} BytesSkipped(bytes: seq<Byte>, rest: seq<Byte>, closing: seq<Byte>)
    requires closing != [] && forall i :: 0 <= i < |bytes| ==> IsPrimitive(bytes[i])
    ensures SkipNest(bytes + rest, closing) == SkipNest(rest, closing)
  {
    hide SkipNest;
    if bytes == [] {
      assert bytes + rest == rest;
    } else {
      BytesSkipped(bytes[1..], rest, closing);
      OrdinarySkipped(bytes[0], bytes[1..] + rest, closing);
      assert bytes + rest == [bytes[0]] + (bytes[1..] + rest);
    }
  }

  lemma NestText(us: seq<Unit>, rest: seq<Byte>, closing: seq<Byte>)
    requires closing != [] && IsText(us)
    ensures SkipNest(PrintText(us, rest), closing) == SkipNest(rest, closing)
  {
    hide SkipString;
    TextSkipped(us, rest);
  }

  /** The flat scan with its stack of closers passes over a whole value, unless it is too deep. */
  lemma {:induction false} NestSkips(v: Json, rest: seq<Byte>, closing: seq<Byte>)
    requires IsJson(v) && 0 < |closing| <= MAXIMUM_DEPTH
    ensures SkipNest(Print(v, rest), closing)
         == if |closing| + Depth(v) <= MAXIMUM_DEPTH then SkipNest(rest, closing) else None
    decreases v
  {
    match v
    case Text(us) => NestText(us, rest, closing);
    case Primitive(bytes) => BytesSkipped(bytes, rest, closing);
    case Array(items) =>
      if |closing| < MAXIMUM_DEPTH {
        NestItems(items, [CLOSE_BRACKET] + rest, closing + [CLOSE_BRACKET]);
      }
      NestContainer(OPEN_BRACKET, PrintItems(items, [CLOSE_BRACKET] + rest), rest, closing);
    case Object(members) =>
      if |closing| < MAXIMUM_DEPTH {
        NestMembers(members, [CLOSE_BRACE] + rest, closing + [CLOSE_BRACE]);
      }
      NestContainer(OPEN_BRACE, PrintMembers(members, [CLOSE_BRACE] + rest), rest, closing);
  }

  lemma NestContainer(opener: Byte, inner: seq<Byte>, rest: seq<Byte>, closing: seq<Byte>)
    requires IsOpener(opener) && 0 < |closing| <= MAXIMUM_DEPTH
    ensures SkipNest([opener] + inner, closing)
         == if |closing| == MAXIMUM_DEPTH then None else SkipNest(inner, closing + [Closer(opener)])
    ensures SkipNest([Closer(opener)] + rest, closing + [Closer(opener)]) == SkipNest(rest, closing)
  {
  }

  lemma {:induction false} NestItems(items: Items, rest: seq<Byte>, closing: seq<Byte>)
    requires AreItems(items) && 0 < |closing| <= MAXIMUM_DEPTH
    ensures SkipNest(PrintItems(items, rest), closing)
         == if |closing| + ItemsDepth(items) <= MAXIMUM_DEPTH then SkipNest(rest, closing) else None
    decreases items
  {
    if items.Item? {
      if items.tail.NoItems? {
        NestSkips(items.head, rest, closing);
      } else {
        NestSkips(items.head, [COMMA] + PrintItems(items.tail, rest), closing);
        OrdinarySkipped(COMMA, PrintItems(items.tail, rest), closing);
        NestItems(items.tail, rest, closing);
      }
    }
  }

  lemma {:induction false} NestMembers(members: Members, rest: seq<Byte>, closing: seq<Byte>)
    requires AreMembers(members) && 0 < |closing| <= MAXIMUM_DEPTH
    ensures SkipNest(PrintMembers(members, rest), closing)
         == if |closing| + MembersDepth(members) <= MAXIMUM_DEPTH then SkipNest(rest, closing) else None
    decreases members
  {
    if members.Member? {
      var after := if members.tail.NoMembers? then rest else [COMMA] + PrintMembers(members.tail, rest);
      NestText(members.key, [COLON] + Print(members.value, after), closing);
      OrdinarySkipped(COLON, Print(members.value, after), closing);
      NestSkips(members.value, after, closing);
      if members.tail.Member? {
        OrdinarySkipped(COMMA, PrintMembers(members.tail, rest), closing);
        NestMembers(members.tail, rest, closing);
      }
    }
  }

  // ---------------------------------------------------------------- the fields of a printed object

  lemma {:induction false} UnitsAppend(us: seq<Unit>, rest: seq<Byte>)
    ensures PrintUnits(us, rest) == PrintUnits(us, []) + rest
  {
    if us != [] {
      UnitsAppend(us[1..], rest);
    }
  }

  lemma TextAppend(us: seq<Unit>, rest: seq<Byte>)
    ensures PrintText(us, rest) == [QUOTE] + PrintUnits(us, []) + [QUOTE] + rest
    ensures PrintText(us, rest) == PrintText(us, []) + rest
  {
    UnitsAppend(us, [QUOTE] + rest);
    UnitsAppend(us, [QUOTE] + []);
  }

  lemma {:induction false} PrintAppend(v: Json, rest: seq<Byte>)
    ensures Print(v, rest) == Print(v, []) + rest
    decreases v
  {
    match v
    case Text(us) => TextAppend(us, rest);
    case Primitive(bytes) =>
    case Array(items) =>
      ItemsAppend(items, [CLOSE_BRACKET] + rest);
      ItemsAppend(items, [CLOSE_BRACKET] + []);
    case Object(members) =>
      MembersAppend(members, [CLOSE_BRACE] + rest);
      MembersAppend(members, [CLOSE_BRACE] + []);
  }

  lemma {:induction false} ItemsAppend(items: Items, rest: seq<Byte>)
    ensures PrintItems(items, rest) == PrintItems(items, []) + rest
    decreases items
  {
    if items.Item? {
      if items.tail.NoItems? {
        PrintAppend(items.head, rest);
      } else {
        ItemsAppend(items.tail, rest);
        PrintAppend(items.head, [COMMA] + PrintItems(items.tail, rest));
        PrintAppend(items.head, [COMMA] + PrintItems(items.tail, []));
      }
    }
  }

  lemma {:induction false} MembersAppend(members: Members, rest: seq<Byte>)
    ensures PrintMembers(members, rest) == PrintMembers(members, []) + rest
    decreases members, 1
  {
    hide PrintText, Print;
    if members.Member? {
      if members.tail.NoMembers? {
        MemberAppend(members, [], rest);
        assert [] + rest == rest;
      } else {
        MembersAppend(members.tail, rest);
        MemberAppend(members, [COMMA] + PrintMembers(members.tail, []), rest);
        assert [COMMA] + PrintMembers(members.tail, []) + rest == [COMMA] + PrintMembers(members.tail, rest);
      }
    }
  }

  lemma MemberAppend(members: Members, short: seq<Byte>, rest: seq<Byte>)
    requires members.Member?
    ensures PrintText(members.key, [COLON] + Print(members.value, short + rest))
         == PrintText(members.key, [COLON] + Print(members.value, short)) + rest
    decreases members, 0
  {
    hide PrintText, Print;
    PrintAppend(members.value, short + rest);
    PrintAppend(members.value, short);
    TextAppend(members.key, [COLON] + Print(members.value, short + rest));
    TextAppend(members.key, [COLON] + Print(members.value, short));
    JoinMember(PrintText(members.key, []), Print(members.value, []), short, rest);
  }

  lemma JoinMember(key: seq<Byte>, value: seq<Byte>, short: seq<Byte>, rest: seq<Byte>)
    ensures key + ([COLON] + (value + (short + rest))) == key + ([COLON] + (value + short)) + rest
  {
  }

  lemma {:induction false} PrimitiveSkipped(bytes: seq<Byte>, rest: seq<Byte>)
    requires forall i :: 0 <= i < |bytes| ==> IsPrimitive(bytes[i])
    requires rest != [] && (rest[0] == COMMA || rest[0] == CLOSE_BRACE)
    ensures SkipPrimitive(bytes + rest) == Some(rest)
  {
    if bytes == [] {
      assert bytes + rest == rest;
    } else {
      PrimitiveSkipped(bytes[1..], rest);
      assert (bytes + rest)[1..] == bytes[1..] + rest;
    }
  }

  /** At top level a value ends at the comma or the brace after it, unless it is more than 64 deep. */
  lemma ValueSkipped(v: Json, rest: seq<Byte>)
    requires IsJson(v) && rest != [] && (rest[0] == COMMA || rest[0] == CLOSE_BRACE)
    ensures SkipValue(Print(v, rest)) == if Depth(v) <= MAXIMUM_DEPTH then Some(rest) else None
  {
    hide SkipNest, SkipString;
    match v
    case Text(us) => TextSkipped(us, rest);
    case Primitive(bytes) =>
      PrimitiveSkipped(bytes[1..], rest);
      assert (bytes + rest)[1..] == bytes[1..] + rest;
    case Array(items) =>
      NestItems(items, [CLOSE_BRACKET] + rest, [CLOSE_BRACKET]);
      LastCloser(CLOSE_BRACKET, rest);
      assert Print(v, rest)[1..] == PrintItems(items, [CLOSE_BRACKET] + rest);
    case Object(members) =>
      NestMembers(members, [CLOSE_BRACE] + rest, [CLOSE_BRACE]);
      LastCloser(CLOSE_BRACE, rest);
      assert Print(v, rest)[1..] == PrintMembers(members, [CLOSE_BRACE] + rest);
  }

  lemma LastCloser(closer: Byte, rest: seq<Byte>)
    requires IsCloser(closer)
    ensures SkipNest([closer] + rest, [closer]) == Some(rest)
  {
  }

  function FieldsOf(members: Members): (r: seq<Field>)
    ensures r == [] <==> members.NoMembers?
  {
    if members.NoMembers? then []
    else [Field(PrintUnits(members.key, []), Print(members.value, []))] + FieldsOf(members.tail)
  }

  predicate Shallow(members: Members) {
    members.NoMembers? || (Depth(members.value) <= MAXIMUM_DEPTH && Shallow(members.tail))
  }

  lemma FieldsStep(s: seq<Byte>, key: seq<Byte>, value: seq<Byte>, rest: seq<Byte>)
    requires s == [QUOTE] + key + [QUOTE] + ([COLON] + (value + rest))
             && SkipString(s) == Some([COLON] + (value + rest))
    ensures SkipValue(value + rest).None? ==> Fields(s).None?
    ensures SkipValue(value + rest) == Some(rest) && |rest| == 1 ==> Fields(s) == Some([Field(key, value)])
    ensures SkipValue(value + rest) == Some(rest) && |rest| >= 3 && rest[0] == COMMA ==>
              Fields(s) == match Fields(rest[1..]) case None => None case Some(more) => Some([Field(key, value)] + more)
  {
    hide SkipString, SkipValue;
    var afterKey := [COLON] + (value + rest);
    assert afterKey[1..] == value + rest && (value + rest)[..|value|] == value;
    assert s[1..|s| - |afterKey| - 1] == key;
  }

  lemma {:induction false} FieldsFound(members: Members)
    requires members.Member? && AreMembers(members)
    ensures Fields(PrintMembers(members, [CLOSE_BRACE])) == if Shallow(members) then Some(FieldsOf(members)) else None
    decreases members
  {
    hide SkipString, SkipValue, PrintText, Print, Fields;
    var last := members.tail.NoMembers?;
    var rest := if last then [CLOSE_BRACE] else [COMMA] + PrintMembers(members.tail, [CLOSE_BRACE]);
    PrintAppend(members.value, rest);
    var s := PrintText(members.key, [COLON] + Print(members.value, rest));
    assert s == PrintMembers(members, [CLOSE_BRACE]);
    TextSkipped(members.key, [COLON] + Print(members.value, rest));
    TextAppend(members.key, [COLON] + Print(members.value, rest));
    ValueSkipped(members.value, rest);
    FieldsStep(s, PrintUnits(members.key, []), Print(members.value, []), rest);
    if last {
      assert FieldsOf(members) == [Field(PrintUnits(members.key, []), Print(members.value, []))];
    } else {
      MembersLong(members.tail);
      FieldsFound(members.tail);
      assert rest[1..] == PrintMembers(members.tail, [CLOSE_BRACE]);
    }
  }

  lemma MembersLong(members: Members)
    requires members.Member?
    ensures |PrintMembers(members, [CLOSE_BRACE])| >= 3
  {
    MembersAppend(members, [CLOSE_BRACE]);
    var after := if members.tail.NoMembers? then [CLOSE_BRACE] else [COMMA] + PrintMembers(members.tail, [CLOSE_BRACE]);
    TextAppend(members.key, [COLON] + Print(members.value, after));
  }

  /** A whole message: the object, compact, and a line feed. */
  function PrintMessage(members: Members): seq<Byte> {
    Print(Object(members), [LINE_FEED])
  }

  lemma MessageFieldsFound(members: Members)
    requires AreMembers(members)
    ensures MessageFields(PrintMessage(members))
         == if members.Member? && Shallow(members) then Some(FieldsOf(members)) else None
  {
    hide Fields, FieldsOf, Shallow;
    var message, inner := PrintMessage(members), PrintMembers(members, [CLOSE_BRACE]);
    MembersAppend(members, [CLOSE_BRACE] + [LINE_FEED]);
    MembersAppend(members, [CLOSE_BRACE]);
    assert message == [OPEN_BRACE] + inner + [LINE_FEED];
    if members.Member? {
      MembersLong(members);
      FieldsFound(members);
      assert message[1..|message| - 1] == inner;
    }
  }

  /** Scanner correctness: on every compactly printed object the scanner accepts a rule exactly when no
      member is more than 64 deep, one member has the rule's key, written without escapes, and that
      member prints as the rule's value; whatever is inside nested values. */
  lemma ScannerCorrect(members: Members, rule: Rule)
    requires AreMembers(members)
    ensures Accepts(PrintMessage(members), rule) <==> Shallow(members) && UniqueField(FieldsOf(members), rule)
  {
    hide MessageFields, PrintMessage, Shallow;
    MessageFieldsFound(members);
  }

  // ---------------------------------------------------------------- the scanner loops

  /** Reads the escape that starts at `offset`. */
  method ScanEscape(message: seq<Byte>, size: nat, offset: nat) returns (r: Option<nat>)
    requires size <= |message| && offset < size
    ensures r.Some? <==> SkipEscape(message[offset..size]).Some?
    ensures r.Some? ==> offset < r.value <= size && SkipEscape(message[offset..size]) == Some(message[r.value..size])
  {
    ghost var s := message[offset..size];
    var at := offset + 1;
    if at >= size {
      return None;
    }
    var escape := message[at];
    at := at + 1;
    assert s[2..] == message[at..size];
    if escape != LETTER_U {
      return if IsSimpleEscape(escape) then Some(at) else None;
    }
    if size - at < 4 {
      return None;
    }
    assert s[6..] == message[at + 4..size];
    assert s[2] == message[at] && s[3] == message[at + 1] && s[4] == message[at + 2] && s[5] == message[at + 3];
    for digit := 0 to 4
      invariant forall d :: at <= d < at + digit ==> IsHexDigit(message[d])
    {
      if !IsHexDigit(message[at + digit]) {
        return None;
      }
    }
    return Some(at + 4);
  }

  /** Reads a string at `offset`, and gives the offset after it. */
  method ScanString(message: seq<Byte>, size: nat, offset: nat) returns (r: Option<nat>)
    requires size <= |message| && offset <= size
    ensures r.Some? <==> SkipString(message[offset..size]).Some?
    ensures r.Some? ==> offset < r.value <= size && SkipString(message[offset..size]) == Some(message[r.value..size])
  {
    hide SkipEscape;
    if offset >= size || message[offset] != QUOTE {
      return None;
    }
    var at := offset + 1;
    assert message[offset..size][1..] == message[at..size];
    while at < size
      invariant offset < at <= size
      invariant SkipString(message[offset..size]) == SkipUnits(message[at..size])
      decreases size - at
    {
      var value := message[at];
      assert message[at..size][1..] == message[at + 1..size];
      if value == QUOTE {
        return Some(at + 1);
      }
      if value < 0x20 {
        return None;
      }
      if value == BACKSLASH {
        var next := ScanEscape(message, size, at);
        if next.None? {
          return None;
        }
        at := next.value;
      } else {
        at := at + 1;
      }
    }
    return None;
  }

  /** Reads a container whose opening byte is at `offset`. */
  method ScanNest(message: seq<Byte>, size: nat, offset: nat) returns (r: Option<nat>)
    requires size <= |message| && offset < size && IsOpener(message[offset])
    ensures var spec := SkipNest(message[offset + 1..size], [Closer(message[offset])]);
            && (r.Some? <==> spec.Some?)
            && (r.Some? ==> offset < r.value <= size && spec == Some(message[r.value..size]))
  {
    hide SkipString;
    var closing := new Byte[MAXIMUM_DEPTH](_ => 0);
    closing[0] := Closer(message[offset]);
    var depth := 1;
    var at := offset + 1;
    ghost var spec := SkipNest(message[at..size], [Closer(message[offset])]);
    assert closing[..depth] == [Closer(message[offset])];
    while at < size && depth != 0
      invariant offset < at <= size && 0 <= depth <= MAXIMUM_DEPTH && fresh(closing) && closing.Length == MAXIMUM_DEPTH
      invariant spec == SkipNest(message[at..size], closing[..depth])
      decreases size - at
    {
      var value := message[at];
      ghost var s, stack := message[at..size], closing[..depth];
      assert s[1..] == message[at + 1..size];
      if value == QUOTE {
        var next := ScanString(message, size, at);
        if next.None? {
          return None;
        }
        at := next.value;
      } else if IsOpener(value) {
        if depth == MAXIMUM_DEPTH {
          return None;
        }
        closing[depth] := Closer(value);
        depth := depth + 1;
        assert closing[..depth] == stack + [Closer(value)];
        at := at + 1;
      } else if IsCloser(value) {
        if value != closing[depth - 1] {
          return None;
        }
        depth := depth - 1;
        assert closing[..depth] == stack[..depth];
        at := at + 1;
      } else {
        if value <= 0x20 {
          return None;
        }
        at := at + 1;
      }
    }
    if depth != 0 {
      return None;
    }
    return Some(at);
  }

  method ScanPrimitive(message: seq<Byte>, size: nat, offset: nat) returns (r: Option<nat>)
    requires size <= |message| && offset < size
    ensures r.Some? <==> IsPrimitive(message[offset]) && SkipPrimitive(message[offset + 1..size]).Some?
    ensures r.Some? ==>
              offset < r.value <= size && SkipPrimitive(message[offset + 1..size]) == Some(message[r.value..size])
  {
    var at := offset;
    while at < size && message[at] != COMMA && message[at] != CLOSE_BRACE
      invariant offset <= at <= size
      invariant at > offset ==> IsPrimitive(message[offset])
      invariant at > offset ==> SkipPrimitive(message[offset + 1..size]) == SkipPrimitive(message[at..size])
    {
      assert message[at..size][1..] == message[at + 1..size];
      if !IsPrimitive(message[at]) {
        return None;
      }
      at := at + 1;
    }
    if at == offset {
      return None;
    }
    return Some(at);
  }

  method ScanValue(message: seq<Byte>, size: nat, offset: nat) returns (r: Option<nat>)
    requires size <= |message| && offset <= size
    ensures r.Some? <==> SkipValue(message[offset..size]).Some?
    ensures r.Some? ==> offset < r.value <= size && SkipValue(message[offset..size]) == Some(message[r.value..size])
  {
    hide SkipString, SkipNest, SkipPrimitive;
    if offset >= size {
      return None;
    }
    assert message[offset..size][1..] == message[offset + 1..size];
    if message[offset] == QUOTE {
      r := ScanString(message, size, offset);
    } else if IsOpener(message[offset]) {
      r := ScanNest(message, size, offset);
    } else {
      r := ScanPrimitive(message, size, offset);
    }
  }

  function Count(fields: seq<Field>, rule: Rule): nat {
    if fields == [] then 0
    else
      var n := |fields| - 1;
      Count(fields[..n], rule) + if MatchesKey(fields[n], rule) then 1 else 0
  }

  ghost predicate HasExact(fields: seq<Field>, rule: Rule) {
    exists k :: 0 <= k < |fields| && MatchesKey(fields[k], rule) && fields[k].value == rule.value
  }

  lemma {:induction false} CountZero(fields: seq<Field>, rule: Rule)
    ensures Count(fields, rule) == 0 <==> forall k :: 0 <= k < |fields| ==> !MatchesKey(fields[k], rule)
  {
    if fields != [] {
      var n := |fields| - 1;
      CountZero(fields[..n], rule);
      assert forall k :: 0 <= k < n ==> fields[..n][k] == fields[k];
    }
  }

  lemma {:induction false} CountOne(fields: seq<Field>, rule: Rule, i: nat, j: nat)
    requires i < j < |fields| && MatchesKey(fields[i], rule) && MatchesKey(fields[j], rule)
    ensures Count(fields, rule) >= 2
  {
    var n := |fields| - 1;
    if j < n {
      CountOne(fields[..n], rule, i, j);
    } else {
      CountZero(fields[..n], rule);
      assert fields[..n][i] == fields[i];
    }
  }

  lemma {:induction false} CountOnly(fields: seq<Field>, rule: Rule, k: nat)
    requires k < |fields| && MatchesKey(fields[k], rule)
    requires forall j :: 0 <= j < |fields| && MatchesKey(fields[j], rule) ==> j == k
    ensures Count(fields, rule) == 1
  {
    var n := |fields| - 1;
    if k < n {
      CountOnly(fields[..n], rule, k);
    } else {
      CountZero(fields[..n], rule);
    }
  }

  /** A count of one and a flag are enough to know that the one match is exact. */
  lemma CountAndFlag(fields: seq<Field>, rule: Rule)
    ensures Count(fields, rule) == 1 && HasExact(fields, rule) <==> UniqueField(fields, rule)
  {
    if Count(fields, rule) == 1 && HasExact(fields, rule) {
      var k :| 0 <= k < |fields| && MatchesKey(fields[k], rule) && fields[k].value == rule.value;
      forall j | 0 <= j < |fields| && MatchesKey(fields[j], rule)
        ensures j == k
      {
        if j < k { CountOne(fields, rule, j, k); }
        if k < j { CountOne(fields, rule, k, j); }
      }
    }
    if UniqueField(fields, rule) {
      var k :| 0 <= k < |fields| && MatchesKey(fields[k], rule) && fields[k].value == rule.value
               && forall j :: 0 <= j < |fields| && MatchesKey(fields[j], rule) ==> j == k;
      CountOnly(fields, rule, k);
    }
  }

  function Joined(found: seq<Field>, more: Option<seq<Field>>): Option<seq<Field>> {
    if more.None? then None else Some(found + more.value)
  }

  /** One field at `offset`: the bytes of its key and value, and the offset after it. */
  method ScanField(message: seq<Byte>, size: nat, offset: nat) returns (r: Option<(Field, nat)>)
    requires size <= |message| && offset <= size
    ensures r.None? ==> Fields(message[offset..size]).None?
    ensures r.Some? ==>
              var (field, next) := r.value;
              && offset < next <= size
              && Fields(message[offset..size])
                 == (if size - next == 1 then Some([field])
                     else if size - next < 3 || message[next] != COMMA then None
                     else Joined([field], Fields(message[next + 1..size])))
  {
    hide SkipString, SkipValue;
    var key := ScanString(message, size, offset);
    if key.None? || key.value >= size || message[key.value] != COLON {
      return None;
    }
    var start := key.value + 1;
    assert message[key.value..size][1..] == message[start..size];
    var value := ScanValue(message, size, start);
    if value.None? {
      return None;
    }
    var next := value.value;
    SliceOfSlice(message, offset, size, 1, key.value - offset - 1);
    assert message[start..size][..next - start] == message[start..next];
    assert message[next..size] != [] ==> message[next..size][1..] == message[next + 1..size];
    return Some((Field(message[offset + 1..key.value - 1], message[start..next]), next));
  }

  lemma SliceOfSlice(s: seq<Byte>, a: nat, b: nat, c: nat, d: nat)
    requires a <= b <= |s| && c <= d <= b - a
    ensures s[a..b][c..d] == s[a + c..a + d]
  {
    assert forall k :: 0 <= k < d - c ==> s[a..b][c..d][k] == s[a + c + k] == s[a + c..a + d][k];
  }

  method HasBackslash(key: seq<Byte>) returns (r: bool)
    ensures r <==> BACKSLASH in key
  {
    r := false;
    for scan := 0 to |key|
      invariant r <==> BACKSLASH in key[..scan]
    {
      if key[scan] == BACKSLASH {
        r := true;
      }
    }
    assert key[..|key|] == key;
  }

  method HasExactUniqueTopLevelField(message: seq<Byte>, rule: Rule) returns (ok: bool)
    ensures ok <==> Accepts(message, rule)
  {
    hide Fields, MatchesKey, UniqueField, HasExact;
    var n := |message|;
    if n < 4 || message[n - 1] != LINE_FEED || message[0] != OPEN_BRACE || message[n - 2] != CLOSE_BRACE {
      return false;
    }
    var size, offset, count, exact := n - 1, 1, 0, false;
    ghost var found: seq<Field> := [];
    NoneFound(rule);
    assert Joined([], Fields(message[1..size])) == Fields(message[1..size]) by {
      JoinedNothing(Fields(message[1..size]));
    }
    while offset < size - 1
      invariant 1 <= offset <= size - 1
      invariant offset < size - 1 ==> MessageFields(message) == Joined(found, Fields(message[offset..size]))
      invariant offset == size - 1 ==> MessageFields(message) == Some(found)
      invariant count == Count(found, rule) && exact == HasExact(found, rule)
      decreases size - offset
    {
      var scanned := ScanField(message, size, offset);
      if scanned.None? {
        return false;
      }
      var (field, next) := scanned.value;
      var escaped := HasBackslash(field.key);
      FoundOne(found, field, rule);
      if !escaped && field.key == rule.key {
        count := count + 1;
        exact := exact || field.value == rule.value;
      }
      if size - next != 1 && (size - next < 3 || message[next] != COMMA) {
        return false;
      }
      if size - next != 1 {
        JoinedTwice(found, field, Fields(message[next + 1..size]));
      }
      found := found + [field];
      offset := if size - next == 1 then next else next + 1;
    }
    CountAndFlag(found, rule);
    return count == 1 && exact;
  }

  lemma NoneFound(rule: Rule)
    ensures Count([], rule) == 0 && !HasExact([], rule)
  {
  }

  lemma JoinedNothing(more: Option<seq<Field>>)
    ensures Joined([], more) == more
  {
    assert more.Some? ==> [] + more.value == more.value;
  }

  lemma JoinedTwice(found: seq<Field>, field: Field, more: Option<seq<Field>>)
    ensures Joined(found, Joined([field], more)) == Joined(found + [field], more)
  {
    assert more.Some? ==> found + ([field] + more.value) == found + [field] + more.value;
  }

  lemma FoundOne(found: seq<Field>, field: Field, rule: Rule)
    ensures Count(found + [field], rule)
            == Count(found, rule) + (if BACKSLASH !in field.key && field.key == rule.key then 1 else 0)
    ensures HasExact(found + [field], rule)
            <==> || HasExact(found, rule)
                 || (BACKSLASH !in field.key && field.key == rule.key && field.value == rule.value)
  {
  }

  // ---------------------------------------------------------------- domains

  datatype Purpose =
    | HostHello
    | HostChannelConfirmation
    | CleanStopRequest
    | SupervisorHello
    | CleanStopResult
    | CleanStopError
    | SupervisorCleanupCommitment
    | RecoveryClassification

  function Quoted(key: string, value: string): Rule {
    Rule(Ascii(key), [QUOTE] + Ascii(value) + [QUOTE])
  }

  const HELLO_VERSION := "phase6d-trusted-time-graceful-stop-host-hello-v2"
  const CONFIRMATION_VERSION := "phase6d-trusted-time-graceful-stop-host-channel-confirmation-v2"
  const ENVELOPE_VERSION := "phase6d-trusted-time-graceful-stop-transport-envelope-v2"
  const SUPERVISOR_VERSION := "phase6d-trusted-time-graceful-stop-supervisor-hello-v2"
  const CLEANUP_VERSION := "phase6d-trusted-time-graceful-stop-supervisor-transport-cleanup-commitment-v2"
  const RECOVERY_VERSION := "phase6d-trusted-time-graceful-stop-recovery-classification-envelope-v1"

  function ContractVersion(p: Purpose): string {
    match p
    case HostHello => HELLO_VERSION
    case HostChannelConfirmation => CONFIRMATION_VERSION
    case SupervisorHello => SUPERVISOR_VERSION
    case SupervisorCleanupCommitment => CLEANUP_VERSION
    case RecoveryClassification => RECOVERY_VERSION
    case _ => ENVELOPE_VERSION
  }

  function Envelope(direction: string, frameType: string, counter: string): seq<Rule> {
    [Quoted("direction", direction), Quoted("frame_type", frameType), Rule(Ascii("message_counter"), Ascii(counter))]
  }

  function OtherRules(p: Purpose): seq<Rule> {
    match p
    case HostHello => [Quoted("direction", "host_to_supervisor"), Quoted("status", "host_hello_offered")]
    case HostChannelConfirmation => [Quoted("direction", "host_to_supervisor"),
                                     Quoted("status", "host_channel_confirmed")]
    case CleanStopRequest => Envelope("host_to_supervisor", "clean_stop_request", "2")
    case SupervisorHello => [Quoted("direction", "supervisor_to_host"), Quoted("status", "supervisor_hello_accepted")]
    case CleanStopResult => Envelope("supervisor_to_host", "clean_stop_result", "1")
    case CleanStopError => Envelope("supervisor_to_host", "clean_stop_error", "1")
    case SupervisorCleanupCommitment =>
      [Quoted("service", "trusted-time-graceful-stop-transport-v2"),
       Quoted("status", "supervisor_transport_cleanup_committed")]
    case RecoveryClassification =>
      [Quoted("service", "trusted-time-post-enrollment-graceful-stop-lifecycle-v2"),
       Quoted("status", "recovery_classification_requested")]
  }

  /** The rules one signing method asks of its message. */
  function Rules(p: Purpose): seq<Rule> {
    [Quoted("contract_version", ContractVersion(p))] + OtherRules(p)
  }

  const HELLO_DOMAIN := "host-hello/v2"
  const CONFIRMATION_DOMAIN := "host-channel-confirmation/v2"
  const ENVELOPE_DOMAIN := "transport-envelope/v2"
  const SUPERVISOR_DOMAIN := "supervisor-hello/v2"
  const CLEANUP_DOMAIN := "supervisor-transport-cleanup-commitment/v2"
  const RECOVERY_DOMAIN := "recovery-classification/v1"

  function DomainName(p: Purpose): string {
    match p
    case HostHello => HELLO_DOMAIN
    case HostChannelConfirmation => CONFIRMATION_DOMAIN
    case SupervisorHello => SUPERVISOR_DOMAIN
    case SupervisorCleanupCommitment => CLEANUP_DOMAIN
    case RecoveryClassification => RECOVERY_DOMAIN
    case _ => ENVELOPE_DOMAIN
  }

  const DOMAIN_PREFIX := "AutoQuantTrader/trusted-time/graceful-stop/"

  function Domain(p: Purpose): seq<Byte> {
    Ascii(DOMAIN_PREFIX) + Ascii(DomainName(p))
  }

  ghost predicate Gate(p: Purpose, message: seq<Byte>) {
    0 < |message| <= MAXIMUM_MESSAGE && forall i :: 0 <= i < |Rules(p)| ==> Accepts(message, Rules(p)[i])
  }

  function SignatureInput(domain: seq<Byte>, message: seq<Byte>): seq<Byte> {
    domain + [0] + message
  }

  /** What is handed to the signature primitive, or nothing when the gate refuses. */
  method SignDomain(owner: bool, p: Purpose, message: seq<Byte>) returns (input: Option<seq<Byte>>)
    ensures input.Some? <==> owner && Gate(p, message)
    ensures input.Some? ==> input.value == SignatureInput(Domain(p), message)
  {
    hide Accepts, Rules, Domain;
    if !owner || |message| == 0 || |message| > MAXIMUM_MESSAGE {
      return None;
    }
    var rules := Rules(p);
    for index := 0 to |rules|
      invariant forall i :: 0 <= i < index ==> Accepts(message, rules[i])
    {
      var ok := HasExactUniqueTopLevelField(message, rules[index]);
      if !ok {
        return None;
      }
    }
    return Some(SignatureInput(Domain(p), message));
  }

  /** One message has one value per key, so it cannot satisfy two rules that ask for different ones. */
  lemma RulesConflict(message: seq<Byte>, a: Rule, b: Rule)
    requires a.key == b.key && Accepts(message, a) && Accepts(message, b)
    ensures a.value == b.value
  {
  }

  function VersionSize(p: Purpose): nat {
    match p
    case HostHello => 48
    case HostChannelConfirmation => 63
    case SupervisorHello => 54
    case SupervisorCleanupCommitment => 77
    case RecoveryClassification => 70
    case _ => 56
  }

  function FrameTypeSize(p: Purpose): nat {
    match p
    case CleanStopRequest => 18
    case CleanStopResult => 17
    case CleanStopError => 16
    case _ => 0
  }

  lemma VersionRule(p: Purpose)
    ensures |Rules(p)| > 0 && Rules(p)[0].key == Ascii("contract_version") && |Rules(p)[0].value| == VersionSize(p) + 2
  {
    hide OtherRules, Ascii, ContractVersion;
    VersionLength(p);
  }

  lemma VersionLength(p: Purpose)
    ensures |ContractVersion(p)| == VersionSize(p)
  {
  }

  lemma FrameTypeRule(p: Purpose)
    requires VersionSize(p) == 56
    ensures |Rules(p)| > 2 && Rules(p)[2].key == Ascii("frame_type") && |Rules(p)[2].value| == FrameTypeSize(p) + 2
  {
  }

  /** Two purposes ask one key for different values: their contract versions differ, or they are two of
      the three envelopes and their frame types differ. */
  lemma PurposesDiffer(p: Purpose, q: Purpose) returns (i: nat)
    requires p != q
    ensures i < |Rules(p)| && i < |Rules(q)|
    ensures Rules(p)[i].key == Rules(q)[i].key && |Rules(p)[i].value| != |Rules(q)[i].value|
  {
    hide Rules, Ascii;
    VersionRule(p);
    VersionRule(q);
    i := 0;
    if VersionSize(p) == VersionSize(q) {
      FrameTypeRule(p);
      FrameTypeRule(q);
      i := 2;
    }
  }

  /** Signing exclusivity: no byte string passes the gates of two different signing methods. */
  lemma GatesExclusive(p: Purpose, q: Purpose, message: seq<Byte>)
    requires Gate(p, message) && Gate(q, message)
    ensures p == q
  {
    hide Accepts, Rules;
    if p != q {
      var i := PurposesDiffer(p, q);
      RulesConflict(message, Rules(p)[i], Rules(q)[i]);
    }
  }

  /** A domain without a zero byte ends at the first zero byte. */
  lemma DomainsSeparate(a: seq<Byte>, m: seq<Byte>, b: seq<Byte>, n: seq<Byte>)
    requires 0 !in a && 0 !in b && SignatureInput(a, m) == SignatureInput(b, n)
    ensures a == b && m == n
  {
    var x, y := SignatureInput(a, m), SignatureInput(b, n);
    assert x[|a|] == 0 && y[|b|] == 0;
    assert forall i :: 0 <= i < |a| ==> x[i] == a[i] && a[i] in a;
    assert forall i :: 0 <= i < |b| ==> y[i] == b[i] && b[i] in b;
    assert |a| == |b|;
    assert x[..|a|] == a && y[..|b|] == b;
    assert x[|a| + 1..] == m && y[|b| + 1..] == n;
  }

  predicate IsPrintable(text: string) {
    forall c :: c in text ==> 0 < c as int < 0x80
  }

  lemma PrintableHasNoZero(text: string)
    requires IsPrintable(text)
    ensures 0 !in Ascii(text)
  {
    forall i | 0 <= i < |text|
      ensures Ascii(text)[i] != 0
    {
      assert text[i] in text;
    }
  }

  lemma HellosPrintable()
    ensures IsPrintable(HELLO_DOMAIN) && IsPrintable(SUPERVISOR_DOMAIN)
  {
  }

  lemma ConfirmationPrintable()
    ensures IsPrintable(CONFIRMATION_DOMAIN)
  {
  }

  lemma EnvelopePrintable()
    ensures IsPrintable(ENVELOPE_DOMAIN)
  {
  }

  lemma CleanupPrintable()
    ensures IsPrintable(CLEANUP_DOMAIN)
  {
  }

  lemma RecoveryPrintable()
    ensures IsPrintable(RECOVERY_DOMAIN)
  {
  }

  lemma DomainNamePrintable(p: Purpose)
    ensures IsPrintable(DomainName(p))
  {
    hide IsPrintable;
    HellosPrintable();
    ConfirmationPrintable();
    EnvelopePrintable();
    CleanupPrintable();
    RecoveryPrintable();
  }

  lemma DomainHasNoZero(p: Purpose)
    ensures 0 !in Domain(p)
  {
    hide DomainName, Ascii, IsPrintable;
    DomainNamePrintable(p);
    PrintableHasNoZero(DomainName(p));
    PrefixPrintable();
    PrintableHasNoZero(DOMAIN_PREFIX);
  }

  lemma PrefixPrintable()
    ensures IsPrintable(DOMAIN_PREFIX)
  {
  }

  /** What is signed determines the signing method and the message. */
  lemma SignedInputsDistinct(p: Purpose, m: seq<Byte>, q: Purpose, n: seq<Byte>)
    requires Gate(p, m) && Gate(q, n) && SignatureInput(Domain(p), m) == SignatureInput(Domain(q), n)
    ensures p == q && m == n
  {
    hide Domain, Gate;
    DomainHasNoZero(p);
    DomainHasNoZero(q);
    DomainsSeparate(Domain(p), m, Domain(q), n);
    GatesExclusive(p, q, m);
  }
}
