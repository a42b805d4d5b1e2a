/** JSON text and its two writers: the trailing-comma protocol of src/json.cc and src/json.h, and the
    row writer of src/util.cc. Strings are written as section 7 of RFC 8259 asks. */
module Json {
  import opened Numerals

  datatype Json =
    | Null
    | Bool(b: bool)
    | Int(value: int)
    | Unquoted(content: string)
    | Str(text: string)
    | Arr(items: seq<Json>)
    | Obj(fields: seq<(string, Json)>)

  // ----- strings --------------------------------------------------------------------------

  const BACKSPACE := 8 as char
  const FORMFEED := 12 as char

  predicate NeedsEscape(c: char) {
    c == '\\' || c == '"' || c as int < 0x20
  }

  function EscapeChar(c: char): (e: string)
    ensures e != "" && (!NeedsEscape(c) ==> e == [c])
  {
    if c == '"' then "\\\""
    else if c == '\\' then "\\\\"
    else if c == BACKSPACE then "\\b"
    else if c == FORMFEED then "\\f"
    else if c == '\n' then "\\n"
    else if c == '\r' then "\\r"
    else if c == '\t' then "\\t"
    else if c as int < 0x20 then
      "\\u00" + [HexDigit(c as int / 16), HexDigit(c as int % 16)]
    else [c]
  }

  function Escape(s: string): string {
    if s == "" then "" else EscapeChar(s[0]) + Escape(s[1..])
  }

  function Quoted(s: string): string {
    "\"" + Escape(s) + "\""
  }

  predicate Clean(s: string) {
    forall k :: 0 <= k < |s| ==> !NeedsEscape(s[k])
  }

  /** The fast path agrees with the slow one. */
  lemma {:induction false} CleanIsUnchanged(s: string)
    requires Clean(s)
    ensures Escape(s) == s
  {
    if s != "" {
      assert Clean(s[1..]) by {
        assert forall k :: 0 <= k < |s[1..]| ==> s[1..][k] == s[k + 1];
      }
      CleanIsUnchanged(s[1..]);
    }
  }

  lemma {:induction false} EscapeSnoc(s: string, c: char)
    ensures Escape(s + [c]) == Escape(s) + EscapeChar(c)
  {
    hide EscapeChar;
    if s == "" {
      assert [c][1..] == "";
    } else {
      EscapeSnoc(s[1..], c);
      assert (s + [c])[1..] == s[1..] + [c];
    }
  }

  // ----- the canonical text ---------------------------------------------------------------

  function Decimal(n: nat): string {
    if n < 10 then ['0' + n as char] else Decimal(n / 10) + ['0' + (n % 10) as char]
  }

  function IntText(i: int): string {
    if i < 0 then "-" + Decimal(-i) else Decimal(i)
  }

  function Text(v: Json): string
    decreases v, 0
  {
    match v
    case Null => "null"
    case Bool(b) => if b then "true" else "false"
    case Int(value) => IntText(value)
    case Unquoted(content) => content
    case Str(text) => Quoted(text)
    case Arr(items) => "[" + Items(items) + "]"
    case Obj(fields) => "{" + Fields(fields) + "}"
  }

  function Items(items: seq<Json>): string
    decreases items, 0
  {
    if items == [] then ""
    else if |items| == 1 then Text(items[0])
    else Text(items[0]) + "," + Items(items[1..])
  }

  function Field(f: (string, Json)): string
    decreases f, 0
  {
    "\"" + f.0 + "\":" + Text(f.1)
  }

  function Fields(fields: seq<(string, Json)>): string
    decreases fields, 0
  {
    if fields == [] then ""
    else if |fields| == 1 then Field(fields[0])
    else Field(fields[0]) + "," + Fields(fields[1..])
  }

  lemma {:induction false} ItemsSnoc(items: seq<Json>, v: Json)
    ensures Items(items + [v]) == (if items == [] then "" else Items(items) + ",") + Text(v)
    decreases |items|
  {
    hide Text;
    if items == [] {
      assert items + [v] == [v];
    } else {
      ItemsSnoc(items[1..], v);
      assert (items + [v])[1..] == items[1..] + [v];
      if |items| == 1 {
        assert items[1..] == [];
      }
    }
  }

  lemma {:induction false} FieldsSnoc(fields: seq<(string, Json)>, f: (string, Json))
    ensures Fields(fields + [f]) == (if fields == [] then "" else Fields(fields) + ",") + Field(f)
    decreases |fields|
  {
    hide Field;
    if fields == [] {
      assert fields + [f] == [f];
    } else {
      FieldsSnoc(fields[1..], f);
      assert (fields + [f])[1..] == fields[1..] + [f];
      if |fields| == 1 {
        assert fields[1..] == [];
      }
    }
  }

  // ----- the trailing-comma writer --------------------------------------------------------

  /** What the interface can build: arrays have only arrays and objects as elements, and a `bool` takes
      the branch of the integers. */
  ghost predicate Buildable(v: Json) {
    match v
    case Arr(items) => forall i :: 0 <= i < |items| ==> (items[i].Arr? || items[i].Obj?) && Buildable(items[i])
    case Obj(fields) => forall i :: 0 <= i < |fields| ==> Buildable(fields[i].1)
    case Bool(_) => false
    case _ => true
  }

  /** Text as the writer leaves it: a comma follows unless there is none. */
  function Trailing(text: string, none: bool): string {
    if none then "" else text + ","
  }

  /** Turning the last comma, or the bare opening bracket, into a closing bracket. */
  lemma ClosesTo(before: string, open: string, text: string, none: bool, close: string)
    requires |open| == |close| == 1 && open != "," && (none ==> text == "")
    ensures var s := before + open + Trailing(text, none);
            (if s[|s| - 1] == ',' then s[..|s| - 1] else s) + close + "," == before + (open + text + close) + ","
  {
    if !none {
      var s := before + open + (text + ",");
      assert s[|s| - 1] == ',' && s[..|s| - 1] == before + open + text;
    }
  }

  /** The string shared by a writer and the nodes, arrays and objects made from it. */
  class Writer {
    var ret: string

    constructor ()
      ensures ret == ""
    {
      ret := "";
    }

    method AppendQuotedString(sv: string)
      modifies this
      ensures ret == old(ret) + Quoted(sv)
    {
      hide NeedsEscape, Escape;
      if forall k :: 0 <= k < |sv| ==> !NeedsEscape(sv[k]) {
        CleanIsUnchanged(sv);
        ret := ret + "\"";
        ret := ret + sv;
        ret := ret + "\"";
      } else {
        ret := ret + "\"";
        AppendEscaped(sv);
        ret := ret + "\"";
      }
    }

    /** The loop over the characters. */
    method AppendEscaped(sv: string)
      modifies this
      ensures ret == old(ret) + Escape(sv)
    {
      hide EscapeChar;
      for i := 0 to |sv|
        invariant ret == old(ret) + Escape(sv[..i])
      {
        EscapeSnoc(sv[..i], sv[i]);
        assert sv[..i + 1] == sv[..i] + [sv[i]];
        ret := ret + EscapeChar(sv[i]);
      }
      assert sv[..|sv|] == sv;
    }

    /** `Node::operator=`. */
    method Assign(v: Json)
      requires !v.Arr? && !v.Obj? && !v.Bool?
      modifies this
      ensures ret == old(ret) + Text(v) + ","
    {
      match v {
        case Null => ret := ret + "null";
        case Int(value) => ret := ret + IntText(value);
        case Unquoted(content) => ret := ret + content;
        case Str(text) => AppendQuotedString(text);
      }
      ret := ret + ",";
    }

    /** The destructor of an array or object: the last comma becomes the closing bracket. */
    method Close(bracket: char)
      requires ret != ""
      modifies this
      ensures var s := old(ret);
              ret == (if s[|s| - 1] == ',' then s[..|s| - 1] else s) + [bracket] + ","
    {
      if ret[|ret| - 1] == ',' {
        ret := ret[..|ret| - 1] + [bracket];
        ret := ret + ",";
      } else {
        ret := ret + [bracket] + ",";
      }
    }

    /** `Object::operator[]`; the key is written as it is. */
    method Key(key: string)
      modifies this
      ensures ret == old(ret) + "\"" + key + "\":"
    {
      ret := ret + "\"";
      ret := ret + key;
      ret := ret + "\":";
    }

    /** A properly nested use of the writer that builds v. */
    method Build(v: Json)
      requires Buildable(v)
      modifies this
      ensures ret == old(ret) + Text(v) + ","
      decreases v
    {
      match v {
        case Arr(items) => BuildArray(items);
        case Obj(fields) => BuildObject(fields);
        case Bool(_) => assert false;
        case _ => Assign(v);
      }
    }

    method BuildArray(items: seq<Json>)
      requires forall i :: 0 <= i < |items| ==> Buildable(items[i])
      modifies this
      ensures ret == old(ret) + Text(Arr(items)) + ","
      decreases items, 1
    {
      ret := ret + "[";
      BuildItems(items);
      ClosesTo(old(ret), "[", Items(items), items == [], "]");
      Close(']');
    }

    /** The elements of an array, in order. */
    method BuildItems(items: seq<Json>)
      requires forall i :: 0 <= i < |items| ==> Buildable(items[i])
      modifies this
      ensures ret == old(ret) + Trailing(Items(items), items == [])
      decreases items, 0
    {
      hide Text, Items;
      for i := 0 to |items|
        invariant ret == old(ret) + Trailing(Items(items[..i]), i == 0)
      {
        ItemsSnoc(items[..i], items[i]);
        assert items[..i + 1] == items[..i] + [items[i]];
        Build(items[i]);
        assert ret == old(ret) + (Trailing(Items(items[..i]), i == 0) + Text(items[i]) + ",");
      }
      assert items[..|items|] == items;
    }

    method BuildField(f: (string, Json))
      requires Buildable(f.1)
      modifies this
      ensures ret == old(ret) + Field(f) + ","
      decreases f
    {
      Key(f.0);
      Build(f.1);
    }

    method BuildObject(fields: seq<(string, Json)>)
      requires forall i :: 0 <= i < |fields| ==> Buildable(fields[i].1)
      modifies this
      ensures ret == old(ret) + Text(Obj(fields)) + ","
      decreases fields, 1
    {
      ret := ret + "{";
      BuildFields(fields);
      ClosesTo(old(ret), "{", Fields(fields), fields == [], "}");
      Close('}');
    }

    /** The members of an object, in order. */
    method BuildFields(fields: seq<(string, Json)>)
      requires forall i :: 0 <= i < |fields| ==> Buildable(fields[i].1)
      modifies this
      ensures ret == old(ret) + Trailing(Fields(fields), fields == [])
      decreases fields, 0
    {
      hide Field, Fields;
      for i := 0 to |fields|
        invariant ret == old(ret) + Trailing(Fields(fields[..i]), i == 0)
      {
        FieldsSnoc(fields[..i], fields[i]);
        assert fields[..i + 1] == fields[..i] + [fields[i]];
        BuildField(fields[i]);
        assert ret == old(ret) + (Trailing(Fields(fields[..i]), i == 0) + Field(fields[i]) + ",");
      }
      assert fields[..|fields|] == fields;
    }

    /** `Writer::string`: drops the last comma. */
    method String() returns (s: string)
      requires ret != ""
      modifies this
      ensures s == if old(ret)[|old(ret)| - 1] == ',' then old(ret)[..|old(ret)| - 1] else old(ret)
    {
      if ret[|ret| - 1] == ',' {
        ret := ret[..|ret| - 1];
      }
      s := ret;
      ret := "";
    }
  }

  /** A writer used once, for any value it can build, gives exactly the canonical text. */
  method WriteJson(v: Json) returns (s: string)
    requires Buildable(v)
    ensures s == Text(v)
  {
    var w := new Writer();
    w.Build(v);
    assert w.ret == Text(v) + ",";
    s := w.String();
  }

  // ----- known texts ----------------------------------------------------------------------

  lemma EscapesLiterally()
    ensures EscapeChar('"') == "\\\"" && EscapeChar('\\') == "\\\\"
    ensures EscapeChar('\n') == "\\n" && EscapeChar('\r') == "\\r"
    ensures EscapeChar('\t') == "\\t" && EscapeChar(8 as char) == "\\b" && EscapeChar(12 as char) == "\\f"
    ensures EscapeChar(0 as char) == "\\u0000" && EscapeChar(31 as char) == "\\u001f" && EscapeChar('/') == "/"
  {
  }

  lemma WordsLiterally()
    ensures Text(Null) == "null" && Text(Bool(true)) == "true" && Text(Bool(false)) == "false"
    ensures Text(Arr([])) == "[]" && Text(Obj([])) == "{}"
  {
  }

  lemma IntsLiterally()
    ensures Text(Int(0)) == "0" && Text(Int(7)) == "7" && Text(Int(-12)) == "-12"
  {
    assert Decimal(12) == Decimal(1) + "2";
  }

  lemma ArrayLiterally(v: Json, w: Json)
    ensures Text(Arr([v])) == "[" + Text(v) + "]"
    ensures Text(Arr([v, w])) == "[" + (Text(v) + "," + Text(w)) + "]"
  {
    hide Text;
    assert [v, w][1..] == [w];
    assert Items([v]) == Text(v) && Items([v, w]) == Text(v) + "," + Items([w]);
    ItemsOfArray([v]);
    ItemsOfArray([v, w]);
  }

  lemma ItemsOfArray(items: seq<Json>)
    ensures Text(Arr(items)) == "[" + Items(items) + "]"
  {
  }

  lemma ObjectLiterally(f: (string, Json), g: (string, Json))
    ensures Text(Obj([f])) == "{" + ("\"" + f.0 + "\":" + Text(f.1)) + "}"
    ensures Text(Obj([f, g])) ==
            "{" + (("\"" + f.0 + "\":" + Text(f.1)) + "," + ("\"" + g.0 + "\":" + Text(g.1))) + "}"
  {
    hide Text;
    assert [f, g][1..] == [g];
    assert Fields([f]) == Field(f) && Fields([f, g]) == Field(f) + "," + Fields([g]);
    FieldsOfObject([f]);
    FieldsOfObject([f, g]);
  }

  lemma FieldsOfObject(fields: seq<(string, Json)>)
    ensures Text(Obj(fields)) == "{" + Fields(fields) + "}"
  {
  }
}
