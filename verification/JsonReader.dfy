/** A reference JSON reader, and the proof that it recovers what the writers wrote. */
module JsonReader {
  import opened Options
  import opened Numerals
  import opened Json

  // ----- strings --------------------------------------------------------------------------

  /** One character or escape sequence of a string: what it stands for and its length. */
  function ReadChar(s: string): (r: Option<(char, nat)>)
    requires s != ""
    ensures r.Some? ==> 1 <= r.value.1 <= |s|
    ensures r.Some? && s[0] == '\\' ==> r.value.1 >= 2
  {
    if s[0] as int < 0x20 || s[0] == '"' then None
    else if s[0] != '\\' then Some((s[0], 1))
    else if |s| < 2 then None
    else if s[1] == '"' || s[1] == '\\' || s[1] == '/' then Some((s[1], 2))
    else if s[1] == 'b' then Some((BACKSPACE, 2))
    else if s[1] == 'f' then Some((FORMFEED, 2))
    else if s[1] == 'n' then Some(('\n', 2))
    else if s[1] == 'r' then Some(('\r', 2))
    else if s[1] == 't' then Some(('\t', 2))
    else if s[1] != 'u' || |s| < 6 then None
    else match (HexValue(s[2]), HexValue(s[3]), HexValue(s[4]), HexValue(s[5]))
      case (Some(a), Some(b), Some(c), Some(d)) =>
        var code := ((a * 16 + b) * 16 + c) * 16 + d;
        if code < 0xD800 then Some((code as char, 6)) else None
      case _ => None
  }

  /** A string up to its closing quote, and what follows. */
  function ReadString(s: string): (r: Option<(string, string)>)
    ensures r.Some? ==> |s| >= |r.value.0| + 1 + |r.value.1|
    decreases |s|
  {
    if s == "" then None
    else if s[0] == '"' then Some(("", s[1..]))
    else match ReadChar(s)
      case None => None
      case Some(x) =>
        match ReadString(s[x.1..])
        case None => None
        case Some(y) => Some(([x.0] + y.0, y.1))
  }

  lemma ReadsEscape(c: char, t: string)
    ensures EscapeChar(c) + t != "" && (EscapeChar(c) + t)[0] != '"'
    ensures ReadChar(EscapeChar(c) + t) == Some((c, |EscapeChar(c)|))
  {
    if c as int < 0x20 {
      var n := c as int;
      assert HexValue(HexDigit(n / 16)) == Some(n / 16) && HexValue(HexDigit(n % 16)) == Some(n % 16);
      assert n / 16 * 16 + n % 16 == n;
    }
  }

  /** Escaping is undone by reading, for every string. */
  lemma {:induction false} ReadsEscaped(s: string, rest: string)
    ensures ReadString(Escape(s) + "\"" + rest) == Some((s, rest))
  {
    hide EscapeChar, ReadChar;
    if s == "" {
      assert "" + "\"" + rest == "\"" + rest;
    } else {
      var t := Escape(s[1..]) + "\"" + rest;
      ReadsEscaped(s[1..], rest);
      ReadsEscape(s[0], t);
      assert Escape(s) + "\"" + rest == EscapeChar(s[0]) + t;
      assert (EscapeChar(s[0]) + t)[|EscapeChar(s[0])|..] == t;
      assert [s[0]] + s[1..] == s;
    }
  }

  /** An object key is written without escaping: it reads back exactly when it needs none. */
  lemma KeyReadsBackExactlyWhen(key: string, rest: string)
    ensures ReadString(key + "\"" + rest) == Some((key, rest)) <==> Clean(key)
  {
    if Clean(key) {
      CleanIsUnchanged(key);
      ReadsEscaped(key, rest);
    } else if ReadString(key + "\"" + rest) == Some((key, rest)) {
      assert key + "\"" + rest == key + ("\"" + rest);
      DirtyIsLonger(key, "\"" + rest);
    }
  }

  /** Reading a string with something to escape in it takes more than its length, or stops early. */
  lemma {:induction false} DirtyIsLonger(key: string, t: string)
    requires !Clean(key)
    ensures var r := ReadString(key + t);
            r.Some? && |r.value.0| >= |key| ==> |key + t| > |r.value.0| + 1 + |r.value.1|
    decreases |key|
  {
    var s := key + t;
    if key[0] != '"' && ReadChar(s).Some? {
      var n := ReadChar(s).value.1;
      if key[0] != '\\' {
        assert !Clean(key[1..]) by {
          var k :| 0 <= k < |key| && NeedsEscape(key[k]);
          assert k > 0 && key[1..][k - 1] == key[k];
        }
        DirtyIsLonger(key[1..], t);
        assert s[1..] == key[1..] + t;
      }
    }
  }

  // ----- values ---------------------------------------------------------------------------

  function DigitRun(s: string): (n: nat)
    ensures n <= |s|
    ensures forall k :: 0 <= k < n ==> IsDigit(s[k])
    ensures n < |s| ==> !IsDigit(s[n])
  {
    if s == "" || !IsDigit(s[0]) then 0 else 1 + DigitRun(s[1..])
  }

  predicate NumberChar(c: char) {
    IsDigit(c) || c == '-' || c == '+' || c == '.' || c == 'e' || c == 'E'
  }

  function NumberRun(s: string): (n: nat)
    ensures n <= |s|
    ensures forall k :: 0 <= k < n ==> NumberChar(s[k])
    ensures n < |s| ==> !NumberChar(s[n])
  {
    if s == "" || !NumberChar(s[0]) then 0 else 1 + NumberRun(s[1..])
  }

  /** The grammar of numbers (section 6 of RFC 8259). */
  predicate IsNumber(s: string) {
    var t := if s != "" && s[0] == '-' then s[1..] else s;
    var n := DigitRun(t);
    n > 0 && (n == 1 || t[0] != '0') && IsFraction(t[n..])
  }

  predicate IsFraction(s: string) {
    if s != "" && s[0] == '.' then
      var n := DigitRun(s[1..]);
      n > 0 && IsExponent(s[n + 1..])
    else IsExponent(s)
  }

  predicate IsExponent(s: string) {
    s == "" ||
    ((s[0] == 'e' || s[0] == 'E') &&
     var t := if |s| > 1 && (s[1] == '-' || s[1] == '+') then s[2..] else s[1..];
     t != "" && DigitRun(t) == |t|)
  }

  /** A number that is the text of an integer is that integer, any other is kept as it is. */
  function NumberOf(s: string): Json {
    var i := if s != "" && s[0] == '-' then -(Number(s[1..][..DigitRun(s[1..])]) as int) else Number(s[..DigitRun(s)]);
    if IntText(i) == s then Int(i) else Unquoted(s)
  }

  function ReadValue(s: string): (r: Option<(Json, string)>)
    ensures r.Some? ==> |r.value.1| < |s|
    decreases |s|, 0
  {
    if s == "" then None
    else if s[0] == 'n' then if "null" <= s then Some((Null, s[4..])) else None
    else if s[0] == 't' then if "true" <= s then Some((Bool(true), s[4..])) else None
    else if s[0] == 'f' then if "false" <= s then Some((Bool(false), s[5..])) else None
    else if s[0] == '"' then
      match ReadString(s[1..]) case None => None case Some(x) => Some((Str(x.0), x.1))
    else if s[0] == '[' then
      if |s| >= 2 && s[1] == ']' then Some((Arr([]), s[2..]))
      else match ReadItems(s[1..]) case None => None case Some(x) => Some((Arr(x.0), x.1))
    else if s[0] == '{' then
      if |s| >= 2 && s[1] == '}' then Some((Obj([]), s[2..]))
      else match ReadFields(s[1..]) case None => None case Some(x) => Some((Obj(x.0), x.1))
    else
      var n := NumberRun(s);
      if IsNumber(s[..n]) then Some((NumberOf(s[..n]), s[n..])) else None
  }

  /** One or more items up to the closing bracket. */
  function ReadItems(s: string): (r: Option<(seq<Json>, string)>)
    ensures r.Some? ==> |r.value.1| < |s|
    decreases |s|, 1
  {
    match ReadValue(s)
    case None => None
    case Some(x) =>
      if x.1 == "" then None
      else if x.1[0] == ']' then Some(([x.0], x.1[1..]))
      else if x.1[0] != ',' then None
      else match ReadItems(x.1[1..]) case None => None case Some(y) => Some(([x.0] + y.0, y.1))
  }

  function ReadField(s: string): (r: Option<((string, Json), string)>)
    ensures r.Some? ==> |r.value.1| < |s|
    decreases |s|, 1
  {
    if s == "" || s[0] != '"' then None
    else match ReadString(s[1..])
      case None => None
      case Some(k) =>
        if k.1 == "" || k.1[0] != ':' then None
        else match ReadValue(k.1[1..]) case None => None case Some(x) => Some(((k.0, x.0), x.1))
  }

  function ReadFields(s: string): (r: Option<(seq<(string, Json)>, string)>)
    ensures r.Some? ==> |r.value.1| < |s|
    decreases |s|, 2
  {
    match ReadField(s)
    case None => None
    case Some(x) =>
      if x.1 == "" then None
      else if x.1[0] == '}' then Some(([x.0], x.1[1..]))
      else if x.1[0] != ',' then None
      else match ReadFields(x.1[1..]) case None => None case Some(y) => Some(([x.0] + y.0, y.1))
  }

  /** Raw text only where it is a number, and keys that need no escaping. */
  ghost predicate Readable(v: Json) {
    match v
    case Unquoted(content) => IsNumber(content)
    case Arr(items) => forall i :: 0 <= i < |items| ==> Readable(items[i])
    case Obj(fields) => forall i :: 0 <= i < |fields| ==> Clean(fields[i].0) && Readable(fields[i].1)
    case _ => true
  }

  /** The value that its text stands for: a raw number may be an integer. */
  ghost function Meant(v: Json): Json
    decreases v, 0
  {
    match v
    case Unquoted(content) => NumberOf(content)
    case Arr(items) => Arr(MeantItems(items))
    case Obj(fields) => Obj(MeantFields(fields))
    case _ => v
  }

  ghost function MeantItems(items: seq<Json>): (r: seq<Json>)
    ensures |r| == |items| && forall i :: 0 <= i < |items| ==> r[i] == Meant(items[i])
    decreases items, 0
  {
    if items == [] then [] else [Meant(items[0])] + MeantItems(items[1..])
  }

  ghost function MeantField(f: (string, Json)): (string, Json)
    decreases f, 0
  {
    (f.0, Meant(f.1))
  }

  ghost function MeantFields(fields: seq<(string, Json)>): (r: seq<(string, Json)>)
    ensures |r| == |fields| && forall i :: 0 <= i < |fields| ==> r[i] == MeantField(fields[i])
    decreases fields, 0
  {
    if fields == [] then [] else [MeantField(fields[0])] + MeantFields(fields[1..])
  }

  ghost predicate NoRaw(v: Json) {
    match v
    case Unquoted(_) => false
    case Arr(items) => forall i :: 0 <= i < |items| ==> NoRaw(items[i])
    case Obj(fields) => forall i :: 0 <= i < |fields| ==> NoRaw(fields[i].1)
    case _ => true
  }

  lemma {:induction false} NoRawIsMeant(v: Json)
    requires NoRaw(v)
    ensures Meant(v) == v
  {
    match v
    case Arr(items) =>
      forall i | 0 <= i < |items|
        ensures Meant(items[i]) == items[i]
      {
        NoRawIsMeant(items[i]);
      }
      assert MeantItems(items) == items;
    case Obj(fields) =>
      forall i | 0 <= i < |fields|
        ensures MeantField(fields[i]) == fields[i]
      {
        NoRawIsMeant(fields[i].1);
      }
      assert MeantFields(fields) == fields;
    case _ =>
  }

  // ----- numbers --------------------------------------------------------------------------

  predicate EndsNumber(rest: string) {
    rest == "" || !NumberChar(rest[0])
  }

  lemma {:induction false} DecimalReads(n: nat)
    ensures Decimal(n) != "" && (n >= 10 ==> Decimal(n)[0] != '0' && |Decimal(n)| > 1)
    ensures n >= 1 ==> Decimal(n)[0] != '0'
    ensures n < 10 ==> |Decimal(n)| == 1
    ensures forall k :: 0 <= k < |Decimal(n)| ==> '0' <= Decimal(n)[k] <= '9'
    ensures Number(Decimal(n)) == n
  {
    if n < 10 {
      assert Decimal(n)[..0] == "";
    } else {
      DecimalReads(n / 10);
      assert Decimal(n)[..|Decimal(n)| - 1] == Decimal(n / 10);
    }
  }

  lemma AllDigits(d: string)
    requires forall k :: 0 <= k < |d| ==> IsDigit(d[k])
    ensures DigitRun(d) == |d|
  {
  }

  /** The text of an integer is a number, and stands for that integer. */
  lemma IntIsNumber(i: int)
    ensures IsNumber(IntText(i)) && NumberOf(IntText(i)) == Int(i)
  {
    hide DigitRun, Number, Decimal;
    var n := if i < 0 then -i else i;
    var d := Decimal(n);
    DecimalReads(n);
    AllDigits(d);
    assert d[|d|..] == "" && d[..|d|] == d;
    assert ("-" + d)[1..] == d;
    assert n < 10 ==> |d| == 1;
  }

  lemma ExponentChars(s: string)
    requires IsExponent(s)
    ensures forall k :: 0 <= k < |s| ==> NumberChar(s[k])
  {
    if s != "" {
      var skip := if |s| > 1 && (s[1] == '-' || s[1] == '+') then 2 else 1;
      assert forall k :: skip <= k < |s| ==> s[k] == s[skip..][k - skip];
    }
  }

  lemma FractionChars(s: string)
    requires IsFraction(s)
    ensures forall k :: 0 <= k < |s| ==> NumberChar(s[k])
  {
    if s != "" && s[0] == '.' {
      var n := DigitRun(s[1..]);
      ExponentChars(s[n + 1..]);
      assert forall k :: 1 <= k < n + 1 ==> s[k] == s[1..][k - 1];
      assert forall k :: n + 1 <= k < |s| ==> s[k] == s[n + 1..][k - (n + 1)];
    } else {
      ExponentChars(s);
    }
  }

  lemma NumberChars(s: string)
    requires IsNumber(s)
    ensures s != "" && (s[0] == '-' || IsDigit(s[0])) && forall k :: 0 <= k < |s| ==> NumberChar(s[k])
  {
    hide IsFraction;
    var t := if s != "" && s[0] == '-' then s[1..] else s;
    DigitsThenFraction(t);
    if s != "" && s[0] == '-' {
      assert forall k :: 1 <= k < |s| ==> s[k] == s[1..][k - 1];
    }
  }

  lemma DigitsThenFraction(t: string)
    requires DigitRun(t) > 0 && IsFraction(t[DigitRun(t)..])
    ensures IsDigit(t[0]) && forall k :: 0 <= k < |t| ==> NumberChar(t[k])
  {
    hide IsFraction, DigitRun, NumberChar;
    var n := DigitRun(t);
    FractionChars(t[n..]);
    DigitsAreNumberChars();
    forall k | n <= k < |t|
      ensures NumberChar(t[k])
    {
      assert t[k] == t[n..][k - n];
    }
  }

  lemma DigitsAreNumberChars()
    ensures forall c :: IsDigit(c) ==> NumberChar(c)
  {
  }

  lemma NumberThenRest(d: string, rest: string)
    requires EndsNumber(rest) && forall k :: 0 <= k < |d| ==> NumberChar(d[k])
    ensures NumberRun(d + rest) == |d| && (d + rest)[..|d|] == d && (d + rest)[|d|..] == rest
  {
    var t := d + rest;
    assert forall k :: 0 <= k < |d| ==> t[k] == d[k];
    assert rest != "" ==> t[|d|] == rest[0];
  }

  lemma ReadsNumber(content: string, rest: string)
    requires IsNumber(content) && EndsNumber(rest)
    ensures content != "" && content[0] != ']' && content[0] != '}'
    ensures ReadValue(content + rest) == Some((NumberOf(content), rest))
  {
    hide IsNumber, NumberOf;
    NumberChars(content);
    NumberThenRest(content, rest);
    assert (content + rest)[0] == content[0];
  }

  lemma ReadsWord(rest: string)
    ensures ReadValue("null" + rest) == Some((Null, rest))
    ensures ReadValue("true" + rest) == Some((Bool(true), rest))
    ensures ReadValue("false" + rest) == Some((Bool(false), rest))
  {
    assert ("null" + rest)[4..] == rest && ("true" + rest)[4..] == rest && ("false" + rest)[5..] == rest;
  }

  // ----- strings, arrays and objects ------------------------------------------------------

  lemma ReadsStr(text: string, rest: string)
    ensures ReadValue(Quoted(text) + rest) == Some((Str(text), rest))
  {
    hide ReadString, Escape;
    ReadsEscaped(text, rest);
    assert Quoted(text) + rest == "\"" + (Escape(text) + "\"" + rest);
    assert (Quoted(text) + rest)[1..] == Escape(text) + "\"" + rest;
  }

  lemma ReadsArray(items: seq<Json>, text: string, rest: string)
    requires items == [] ==> text == ""
    requires items != [] ==> text != "" && text[0] != ']' && ReadItems(text + "]" + rest) == Some((items, rest))
    ensures ReadValue("[" + text + "]" + rest) == Some((Arr(items), rest))
  {
    hide ReadItems;
    var s := "[" + text + "]" + rest;
    if items == [] {
      assert s[2..] == rest;
    } else {
      assert s[1..] == text + "]" + rest && s[1] == text[0];
    }
  }

  lemma ReadsObject(fields: seq<(string, Json)>, text: string, rest: string)
    requires fields == [] ==> text == ""
    requires fields != [] ==> text != "" && text[0] != '}' && ReadFields(text + "}" + rest) == Some((fields, rest))
    ensures ReadValue("{" + text + "}" + rest) == Some((Obj(fields), rest))
  {
    hide ReadFields;
    var s := "{" + text + "}" + rest;
    if fields == [] {
      assert s[2..] == rest;
    } else {
      assert s[1..] == text + "}" + rest && s[1] == text[0];
    }
  }

  /** Reading the canonical text of a value gives what it means. */
  lemma {:induction false} ReadsText(v: Json, rest: string)
    requires Readable(v) && EndsNumber(rest)
    ensures Text(v) != "" && Text(v)[0] != ']' && Text(v)[0] != '}'
    ensures ReadValue(Text(v) + rest) == Some((Meant(v), rest))
    decreases v, 0
  {
    hide ReadValue, IntText, Escape, Items, Fields, IsNumber, NumberOf;
    match v
    case Null =>
      ReadsWord(rest);
    case Bool(_) =>
      ReadsWord(rest);
    case Int(i) =>
      IntIsNumber(i);
      ReadsNumber(IntText(i), rest);
    case Unquoted(content) =>
      ReadsNumber(content, rest);
    case Str(text) =>
      ReadsStr(text, rest);
    case Arr(items) =>
      if items != [] {
        ReadsItems(items, rest);
      } else {
        EmptyTexts();
      }
      ReadsArray(MeantItems(items), Items(items), rest);
    case Obj(fields) =>
      if fields != [] {
        ReadsFields(fields, rest);
      } else {
        EmptyTexts();
      }
      ReadsObject(MeantFields(fields), Fields(fields), rest);
  }

  lemma EmptyTexts()
    ensures Items([]) == "" && Fields([]) == ""
  {
  }

  lemma {:induction false} ReadsItems(items: seq<Json>, rest: string)
    requires items != [] && forall i :: 0 <= i < |items| ==> Readable(items[i])
    ensures Items(items) != "" && Items(items)[0] != ']'
    ensures ReadItems(Items(items) + "]" + rest) == Some((MeantItems(items), rest))
    decreases items, 0
  {
    var (v, more) := (items[0], items[1..]);
    var t := if more == [] then "]" + rest else "," + (Items(more) + "]" + rest);
    assert Items(items) + "]" + rest == Text(v) + t;
    ReadsText(v, t);
    if more == [] {
      assert t[1..] == rest && [Meant(v)] == MeantItems(items);
    } else {
      ReadsItems(more, rest);
      assert t[1..] == Items(more) + "]" + rest;
    }
  }

  lemma {:induction false} ReadsField(f: (string, Json), rest: string)
    requires Clean(f.0) && Readable(f.1) && EndsNumber(rest)
    ensures Field(f) != "" && Field(f)[0] == '"'
    ensures ReadField(Field(f) + rest) == Some((MeantField(f), rest))
    decreases f, 0
  {
    hide ReadString, ReadValue, Clean;
    var t := ":" + (Text(f.1) + rest);
    assert Field(f) + rest == "\"" + (f.0 + "\"" + t);
    assert (Field(f) + rest)[1..] == f.0 + "\"" + t;
    KeyReadsBackExactlyWhen(f.0, t);
    ReadsText(f.1, rest);
    assert t[1..] == Text(f.1) + rest;
  }

  lemma {:induction false} ReadsFields(fields: seq<(string, Json)>, rest: string)
    requires fields != [] && forall i :: 0 <= i < |fields| ==> Clean(fields[i].0) && Readable(fields[i].1)
    ensures Fields(fields) != "" && Fields(fields)[0] != '}'
    ensures ReadFields(Fields(fields) + "}" + rest) == Some((MeantFields(fields), rest))
    decreases fields, 0
  {
    var (f, more) := (fields[0], fields[1..]);
    var t := if more == [] then "}" + rest else "," + (Fields(more) + "}" + rest);
    assert Fields(fields) + "}" + rest == Field(f) + t;
    ReadsField(f, t);
    if more == [] {
      assert t[1..] == rest && [MeantField(f)] == MeantFields(fields);
    } else {
      ReadsFields(more, rest);
      assert t[1..] == Fields(more) + "}" + rest;
    }
  }

  /** What the writer builds, the reader recovers, provided that raw text is a number and no key needs
      escaping: exactly the value, with raw integers as integers. */
  lemma ReaderInvertsWriter(v: Json)
    requires Readable(v)
    ensures ReadValue(Text(v)) == Some((Meant(v), ""))
    ensures NoRaw(v) ==> ReadValue(Text(v)) == Some((v, ""))
  {
    ReadsText(v, "");
    assert Text(v) + "" == Text(v);
    if NoRaw(v) {
      NoRawIsMeant(v);
    }
  }

  // ----- what the reader returns ----------------------------------------------------------

  /** Every raw text is a number. */
  ghost predicate OnlyNumbers(v: Json) {
    match v
    case Unquoted(content) => IsNumber(content)
    case Arr(items) => forall i :: 0 <= i < |items| ==> OnlyNumbers(items[i])
    case Obj(fields) => forall i :: 0 <= i < |fields| ==> OnlyNumbers(fields[i].1)
    case _ => true
  }

  lemma {:induction false} ReaderReturnsNumbers(s: string)
    requires ReadValue(s).Some?
    ensures OnlyNumbers(ReadValue(s).value.0)
    decreases |s|, 0
  {
    hide IsNumber, ReadString;
    if s[0] == '[' {
      if !(|s| >= 2 && s[1] == ']') {
        ItemsAreNumbers(s[1..]);
      }
    } else if s[0] == '{' {
      if !(|s| >= 2 && s[1] == '}') {
        FieldsAreNumbers(s[1..]);
      }
    }
  }

  lemma {:induction false} ItemsAreNumbers(s: string)
    requires ReadItems(s).Some?
    ensures OnlyNumbers(Arr(ReadItems(s).value.0))
    decreases |s|, 1
  {
    hide ReadValue;
    ReaderReturnsNumbers(s);
    var x := ReadValue(s).value;
    if x.1[0] == ',' {
      ItemsAreNumbers(x.1[1..]);
    }
  }

  lemma {:induction false} FieldsAreNumbers(s: string)
    requires ReadFields(s).Some?
    ensures OnlyNumbers(Obj(ReadFields(s).value.0))
    decreases |s|, 2
  {
    hide ReadField;
    FieldIsNumbers(s);
    var x := ReadField(s).value;
    if x.1[0] == ',' {
      FieldsAreNumbers(x.1[1..]);
    }
  }

  lemma {:induction false} FieldIsNumbers(s: string)
    requires ReadField(s).Some?
    ensures OnlyNumbers(ReadField(s).value.0.1)
    decreases |s|, 1
  {
    hide ReadString, ReadValue, OnlyNumbers;
    ReaderReturnsNumbers(ReadString(s[1..]).value.1[1..]);
  }

  /** A raw text that reads back as what it means is a number. */
  lemma MeantIsNumber(content: string)
    requires OnlyNumbers(Meant(Unquoted(content)))
    ensures IsNumber(content)
  {
    if NumberOf(content).Int? {
      IntIsNumber(NumberOf(content).value);
    }
  }
}
