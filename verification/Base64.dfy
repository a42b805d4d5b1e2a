/** Base64 (src/common_util.cc), with the bytes the decoder writes to its file as a sequence; the
    encoding is that of section 4 of RFC 4648. */
module Base64 {
  import opened Sequences
  import opened Numerals

  const UPPER := "ABCDEFGHIJKLMNOPQRSTUVWXYZ"
  const LOWER := "abcdefghijklmnopqrstuvwxyz"
  const DIGITS := "0123456789"
  const TABLE: string := UPPER + LOWER + DIGITS + "+/"

  /** The character for a group of six bits. */
  function Symbol(n: nat): char
    requires n < 64
  {
    if n < 26 then 'A' + n as char
    else if n < 52 then 'a' + (n - 26) as char
    else if n < 62 then '0' + (n - 52) as char
    else if n == 62 then '+'
    else '/'
  }

  /** The six bits a character stands for; 0 for a character outside the alphabet. */
  function Sextet(c: char): (n: nat)
    ensures n < 64
    ensures n > 0 ==> Symbol(n) == c
  {
    if 'A' <= c <= 'Z' then (c - 'A') as nat
    else if 'a' <= c <= 'z' then (c - 'a') as nat + 26
    else if '0' <= c <= '9' then (c - '0') as nat + 52
    else if c == '+' then 62
    else if c == '/' then 63
    else 0
  }

  lemma Rows()
    ensures |UPPER| == |LOWER| == 26 && |DIGITS| == 10
    ensures forall n: nat :: n < 26 ==> UPPER[n] == 'A' + n as char
    ensures forall n: nat :: n < 26 ==> LOWER[n] == 'a' + n as char
    ensures forall n: nat :: n < 10 ==> DIGITS[n] == '0' + n as char
  {
  }

  lemma TableIsTheAlphabet(n: nat)
    requires n < 64
    ensures |TABLE| == 64 && TABLE[n] == Symbol(n) && Sextet(TABLE[n]) == n && TABLE[n] as int < 128
  {
    hide UPPER, LOWER, DIGITS;
    Rows();
  }

  // ----- the encoding, three bytes at a time ----------------------------------------------

  function Encode(s: seq<byte>): string {
    if s == [] then ""
    else if |s| == 1 then
      var a := s[0] as nat;
      [Symbol(a / 4), Symbol(a % 4 * 16), '=', '=']
    else if |s| == 2 then
      var (a, b) := (s[0] as nat, s[1] as nat);
      [Symbol(a / 4), Symbol(a % 4 * 16 + b / 16), Symbol(b % 16 * 4), '=']
    else
      var (a, b, c) := (s[0] as nat, s[1] as nat, s[2] as nat);
      [Symbol(a / 4), Symbol(a % 4 * 16 + b / 16), Symbol(b % 16 * 4 + c / 64), Symbol(c % 64)] + Encode(s[3..])
  }

  lemma {:induction false} EncodedLength(s: seq<byte>)
    ensures |Encode(s)| == 4 * ((|s| + 2) / 3)
  {
    hide Symbol;
    if |s| > 2 {
      EncodedLength(s[3..]);
      var n := |s[3..]|;
      assert (|s| + 2) / 3 == (n + 3 + 2) / 3 == 1 + (n + 2) / 3;
    }
  }

  lemma SymbolsDoNotPad()
    ensures forall n: nat :: n < 64 ==> Symbol(n) != '='
  {
  }

  function Padding(n: nat): nat {
    if n % 3 == 0 then 0 else 3 - n % 3
  }

  /** The padding characters say how many bytes the last group lacks. */
  lemma {:induction false} PaddingIsExact(s: seq<byte>, k: nat)
    requires k < |Encode(s)|
    ensures Encode(s)[k] == '=' <==> k >= |Encode(s)| - Padding(|s|)
  {
    hide Encode, Padding;
    if |s| <= 2 {
      ShortPadding(s);
    } else {
      FullGroup(s);
      PaddingRepeats(|s[3..]|);
      if k >= 4 {
        PaddingIsExact(s[3..], k - 4);
        assert Encode(s)[k] == Encode(s)[4..][k - 4];
      }
    }
  }

  lemma ShortPadding(s: seq<byte>)
    requires |s| <= 2
    ensures s == [] ==> Encode(s) == ""
    ensures s != [] ==> |Encode(s)| == 4
    ensures forall k :: 0 <= k < |Encode(s)| ==> (Encode(s)[k] == '=' <==> k >= 4 - Padding(|s|))
  {
    hide Symbol;
    SymbolsDoNotPad();
  }

  lemma PaddingRepeats(n: nat)
    ensures Padding(n + 3) == Padding(n) <= 2
  {
  }

  lemma FullGroup(s: seq<byte>)
    requires |s| > 2
    ensures |Encode(s)| >= 4 && Encode(s)[4..] == Encode(s[3..])
    ensures Padding(|s[3..]|) <= |Encode(s[3..])|
    ensures forall k :: 0 <= k < 4 ==> Encode(s)[k] != '='
  {
    hide Symbol;
    SymbolsDoNotPad();
  }

  // ----- the encoder ----------------------------------------------------------------------

  /** The four characters of a group of three octets. */
  function Group(a: byte, b: byte, c: byte): (g: string)
    ensures |g| == 4
  {
    Symbols(a as nat * 0x1_0000 + b as nat * 0x100 + c as nat)
  }

  function Symbols(triple: nat): (g: string)
    ensures |g| == 4
  {
    [Symbol(triple / 0x4_0000 % 64), Symbol(triple / 0x1000 % 64), Symbol(triple / 64 % 64), Symbol(triple % 64)]
  }

  lemma DigitValues(p: nat, q: nat, r: nat, s: nat)
    requires p < 64 && q < 64 && r < 64 && s < 64
    ensures var t := p * 0x4_0000 + q * 0x1000 + r * 64 + s;
            t / 0x4_0000 % 64 == p && t / 0x1000 % 64 == q && t / 64 % 64 == r && t % 64 == s
  {
    var t := p * 0x4_0000 + q * 0x1000 + r * 64 + s;
    assert t / 64 == p * 0x1000 + q * 64 + r;
    assert t / 0x1000 == p * 64 + q;
    assert t / 0x4_0000 == p;
  }

  lemma Digits(p: nat, q: nat, r: nat, s: nat)
    requires p < 64 && q < 64 && r < 64 && s < 64
    ensures Symbols(p * 0x4_0000 + q * 0x1000 + r * 64 + s) == [Symbol(p), Symbol(q), Symbol(r), Symbol(s)]
  {
    var t := p * 0x4_0000 + q * 0x1000 + r * 64 + s;
    DigitValues(p, q, r, s);
    assert Symbols(t) == [Symbol(p), Symbol(q), Symbol(r), Symbol(s)] by {
      hide Symbol;
    }
  }

  lemma Octets(a: nat, b: nat, c: nat)
    requires a < 256 && b < 256 && c < 256
    ensures OctetsOf(a * 0x1_0000 + b * 0x100 + c) == [a as byte, b as byte, c as byte]
  {
    var t := a * 0x1_0000 + b * 0x100 + c;
    assert t / 0x100 == a * 0x100 + b;
  }

  /** Three octets and four sextets with the same bits. */
  lemma Regroup(a: nat, b: nat, c: nat)
    ensures a * 0x1_0000 + b * 0x100 + c
            == a / 4 * 0x4_0000 + (a % 4 * 16 + b / 16) * 0x1000 + (b % 16 * 4 + c / 64) * 64 + c % 64
  {
    assert a == a / 4 * 4 + a % 4 && b == b / 16 * 16 + b % 16 && c == c / 64 * 64 + c % 64;
  }

  lemma GroupIsByBits(a: byte, b: byte, c: byte)
    ensures var (x, y, z) := (a as nat, b as nat, c as nat);
            Group(a, b, c) == [Symbol(x / 4), Symbol(x % 4 * 16 + y / 16), Symbol(y % 16 * 4 + z / 64), Symbol(z % 64)]
  {
    hide Symbol, Symbols;
    var (x, y, z) := (a as nat, b as nat, c as nat);
    Regroup(x, y, z);
    Digits(x / 4, x % 4 * 16 + y / 16, y % 16 * 4 + z / 64, z % 64);
  }

  function Octet(s: seq<byte>, i: nat): byte {
    if i < |s| then s[i] else 0
  }

  function Rest(s: seq<byte>): seq<byte> {
    if |s| <= 3 then [] else s[3..]
  }

  /** The text before the padding is put in: missing octets count as 0. */
  function Unpadded(s: seq<byte>): (t: string)
    decreases |s|
  {
    if s == [] then "" else Group(s[0], Octet(s, 1), Octet(s, 2)) + Unpadded(Rest(s))
  }

  lemma {:induction false} UnpaddedLength(s: seq<byte>)
    ensures |Unpadded(s)| == 4 * ((|s| + 2) / 3)
    decreases |s|
  {
    hide Group;
    if |s| > 3 {
      UnpaddedLength(Rest(s));
      var n := |Rest(s)|;
      assert (|s| + 2) / 3 == (n + 3 + 2) / 3 == 1 + (n + 2) / 3;
    }
  }

  function Padded(t: string, n: nat): string
    requires n <= |t|
  {
    t[..|t| - n] + seq(n, _ => '=')
  }

  lemma PaddedAfter(g: string, t: string, n: nat)
    requires n <= |t|
    ensures Padded(g + t, n) == g + Padded(t, n)
  {
  }

  lemma PaddedNothing()
    ensures Unpadded([]) == Encode([]) == Padded("", 0) == ""
  {
  }

  lemma PaddedGroup(g: string)
    requires |g| == 4
    ensures Padded(g, 1) == [g[0], g[1], g[2], '='] && Padded(g, 2) == [g[0], g[1], '=', '=']
  {
  }

  lemma ShortUnpadded(s: seq<byte>)
    requires 0 < |s| <= 2
    ensures Unpadded(s) == Group(s[0], Octet(s, 1), 0)
  {
    hide Group;
    assert Rest(s) == [] && Unpadded([]) == "";
  }

  lemma ShortIsEncoded(s: seq<byte>)
    requires 0 < |s| <= 2
    ensures Padding(|s|) <= |Unpadded(s)| && Encode(s) == Padded(Unpadded(s), Padding(|s|))
  {
    hide Group, Symbol, Padded;
    GroupIsByBits(s[0], Octet(s, 1), 0);
    ShortUnpadded(s);
    PaddedGroup(Unpadded(s));
  }

  lemma {:induction false} LongIsEncoded(s: seq<byte>)
    requires |s| > 2
    ensures Unpadded(s) == Group(s[0], s[1], s[2]) + Unpadded(s[3..])
    ensures Encode(s) == Group(s[0], s[1], s[2]) + Encode(s[3..])
  {
    hide Group, Symbol, Unpadded;
    GroupIsByBits(s[0], s[1], s[2]);
    UnpaddedNext(s);
    assert Rest(s) == s[3..];
  }

  lemma {:induction false} PaddedIsEncoded(s: seq<byte>)
    ensures Padding(|s|) <= |Unpadded(s)|
    ensures Encode(s) == Padded(Unpadded(s), Padding(|s|))
    decreases |s|
  {
    hide Group, Padded, Encode, Unpadded;
    UnpaddedLength(s);
    if s == [] {
      PaddedNothing();
    } else if |s| <= 2 {
      ShortIsEncoded(s);
    } else {
      LongIsEncoded(s);
      PaddedIsEncoded(s[3..]);
      PaddedAfter(Group(s[0], s[1], s[2]), Unpadded(s[3..]), Padding(|s|));
    }
  }

  lemma UnpaddedNext(s: seq<byte>)
    requires s != []
    ensures Unpadded(s) == Group(s[0], Octet(s, 1), Octet(s, 2)) + Unpadded(Rest(s))
  {
  }

  /** `base64_encode`. */
  method EncodeBytes(data: seq<byte>) returns (text: string)
    ensures text == Encode(data)
  {
    hide Encode, Padded, Unpadded;
    UnpaddedLength(data);
    var outputLength := 4 * ((|data| + 2) / 3);
    var encoded := new char[outputLength];
    PutGroups(encoded, data);
    PaddedIsEncoded(data);
    Pad(encoded, [0, 2, 1][|data| % 3]);
    text := encoded[..];
  }

  /** The first loop. */
  method PutGroups(encoded: array<char>, data: seq<byte>)
    requires encoded.Length == |Unpadded(data)|
    modifies encoded
    ensures encoded[..] == Unpadded(data)
  {
    hide Group, Unpadded, Rest;
    PaddedNothing();
    var i, j := 0, 0;
    assert data[0..] == data;
    while i < |data|
      invariant 0 <= i <= |data|
      invariant j + |Unpadded(data[i..])| == encoded.Length
      invariant encoded[..j] + Unpadded(data[i..]) == Unpadded(data)
    {
      ghost var was, done := encoded[..j], data[i..];
      var a, b, c;
      a, b, c, i := NextOctets(data, i);
      UnpaddedNext(done);
      PutGroup(encoded, j, a, b, c);
      j := j + 4;
      Assoc(was, Group(a, b, c), Unpadded(data[i..]));
    }
    assert data[i..] == [];
  }

  method NextOctets(data: seq<byte>, at: nat) returns (a: byte, b: byte, c: byte, i: nat)
    requires at < |data|
    ensures a == data[at..][0] && b == Octet(data[at..], 1) && c == Octet(data[at..], 2)
    ensures at < i <= |data| && data[i..] == Rest(data[at..])
  {
    i := at;
    a, b, c := data[i], 0, 0;
    i := i + 1;
    if i < |data| {
      b := data[i];
      i := i + 1;
    }
    if i < |data| {
      c := data[i];
      i := i + 1;
    }
  }

  /** The last loop. */
  method Pad(encoded: array<char>, n: nat)
    requires n <= encoded.Length
    modifies encoded
    ensures encoded[..] == Padded(old(encoded[..]), n)
  {
    for i := 0 to n
      invariant encoded[..] == Padded(old(encoded[..]), i)
    {
      encoded[encoded.Length - 1 - i] := '=';
    }
  }

  lemma SymbolsInTable(triple: nat)
    ensures |TABLE| == 64
    ensures Symbols(triple) ==
            [TABLE[triple / 0x4_0000 % 64], TABLE[triple / 0x1000 % 64], TABLE[triple / 64 % 64], TABLE[triple % 64]]
  {
    hide TABLE, Symbol;
    TableIsTheAlphabet(triple / 0x4_0000 % 64);
    TableIsTheAlphabet(triple / 0x1000 % 64);
    TableIsTheAlphabet(triple / 64 % 64);
    TableIsTheAlphabet(triple % 64);
  }

  /** The body of the loop. */
  method PutGroup(encoded: array<char>, j: nat, a: byte, b: byte, c: byte)
    requires j + 4 <= encoded.Length
    modifies encoded
    ensures encoded[..j + 4] == old(encoded[..j]) + Group(a, b, c)
  {
    var triple := a as nat * 0x1_0000 + b as nat * 0x100 + c as nat;
    PutSymbols(encoded, j, triple);
  }

  method PutSymbols(encoded: array<char>, j: nat, triple: nat)
    requires j + 4 <= encoded.Length
    modifies encoded
    ensures encoded[..j + 4] == old(encoded[..j]) + Symbols(triple)
  {
    SymbolsInTable(triple);
    hide Symbols, TABLE;
    var w, x := TABLE[triple / 0x4_0000 % 64], TABLE[triple / 0x1000 % 64];
    var y, z := TABLE[triple / 64 % 64], TABLE[triple % 64];
    PutFour(encoded, j, w, x, y, z);
  }

  method PutFour(encoded: array<char>, j: nat, w: char, x: char, y: char, z: char)
    requires j + 4 <= encoded.Length
    modifies encoded
    ensures encoded[..j + 4] == old(encoded[..j]) + [w, x, y, z]
  {
    encoded[j] := w;
    encoded[j + 1] := x;
    encoded[j + 2] := y;
    encoded[j + 3] := z;
  }

  // ----- the decoder ----------------------------------------------------------------------

  /** The three bytes of a group of four characters. */
  function Ungroup(g: string): (s: seq<byte>)
    requires |g| == 4
    ensures |s| == 3
  {
    OctetsOf(Sextet(g[0]) * 0x4_0000 + Sextet(g[1]) * 0x1000 + Sextet(g[2]) * 64 + Sextet(g[3]))
  }

  function OctetsOf(triple: nat): (s: seq<byte>)
    ensures |s| == 3
  {
    [(triple / 0x1_0000 % 0x100) as byte, (triple / 0x100 % 0x100) as byte, (triple % 0x100) as byte]
  }

  function Decode(text: string): (s: seq<byte>)
    requires |text| % 4 == 0
    ensures |s| == |text| / 4 * 3
  {
    if text == "" then [] else Ungroup(text[..4]) + Decode(text[4..])
  }

  lemma DecodesNext(text: string)
    requires |text| % 4 == 0 && text != ""
    ensures Decode(text) == Ungroup(text[..4]) + Decode(text[4..])
  {
  }

  lemma DecodesNothing()
    ensures Decode("") == []
  {
  }

  function OutputLength(text: string): nat
    requires |text| % 4 == 0 && text != ""
  {
    |text| / 4 * 3 - (if text[|text| - 1] == '=' then 1 else 0) - (if text[|text| - 2] == '=' then 1 else 0)
  }

  /** The table of the decoder. */
  method DecodingTable() returns (table: seq<nat>)
    ensures |table| == 256 && forall c: char :: c as int < 256 ==> table[c as int] == Sextet(c)
  {
    hide TABLE;
    TableIsTheAlphabet(0);
    table := seq(256, _ => 0);
    for i := 0 to 64
      invariant |table| == 256
      invariant forall c: char :: c as int < 256 ==> table[c as int] == if Sextet(c) < i then Sextet(c) else 0
    {
      TableIsTheAlphabet(i);
      table := table[TABLE[i] as int := i];
    }
  }

  /** `base64_decode_to_file`; out is the content of the file. The empty text reads before its start. */
  method DecodeToFile(data: string) returns (ok: bool, out: seq<byte>)
    requires data != "" && forall k :: 0 <= k < |data| ==> data[k] as int < 256
    ensures ok <==> |data| % 4 == 0
    ensures out == if ok then Decode(data) else []
  {
    hide Ungroup, Decode, Sextet;
    out := [];
    if |data| % 4 != 0 {
      return false, out;
    }
    var table := DecodingTable();
    var outputLength := |data| / 4 * 3;
    if data[|data| - 1] == '=' {
      outputLength := outputLength - 1;
    }
    if data[|data| - 2] == '=' {
      outputLength := outputLength - 1;
    }
    out := DecodeGroups(data, table, outputLength);
    ok := true;
  }

  /** The loop. */
  method DecodeGroups(data: string, table: seq<nat>, outputLength: nat) returns (out: seq<byte>)
    requires |data| % 4 == 0 && outputLength > 0 && forall k :: 0 <= k < |data| ==> data[k] as int < 256
    requires |table| == 256 && forall c: char :: c as int < 256 ==> table[c as int] == Sextet(c)
    ensures out == Decode(data)
  {
    hide Ungroup, Decode, Sextet;
    out := [];
    var i, j := 0, 0;
    assert data[0..] == data;
    while i < |data|
      invariant 0 <= i <= |data| && i % 4 == 0
      invariant out + Decode(data[i..]) == Decode(data)
    {
      DecodesNext(data[i..]);
      ghost var rest, done := data[i..], out;
      out := EmitGroup(table, data[i..i + 4], j, outputLength, out);
      i := i + 4;
      assert rest[4..] == data[i..] && rest[..4] == data[i - 4..i];
      Assoc(done, Ungroup(rest[..4]), Decode(data[i..]));
    }
    DecodesNothing();
    assert data[i..] == "";
  }

  /** The body of the loop. */
  method EmitGroup(table: seq<nat>, g: string, j: nat, outputLength: nat, file: seq<byte>) returns (out: seq<byte>)
    requires |table| == 256 && forall c: char :: c as int < 256 ==> table[c as int] == Sextet(c)
    requires |g| == 4 && forall k :: 0 <= k < 4 ==> g[k] as int < 256
    ensures out == file + if j < outputLength then Ungroup(g) else []
  {
    hide Sextet;
    out := file;
    var a, b, c, d := table[g[0] as int], table[g[1] as int], table[g[2] as int], table[g[3] as int];
    var triple := a * 0x4_0000 + b * 0x1000 + c * 64 + d;
    if j < outputLength {
      out := out + [(triple / 0x1_0000 % 0x100) as byte];
    }
    if j < outputLength {
      out := out + [(triple / 0x100 % 0x100) as byte];
    }
    if j < outputLength {
      out := out + [(triple % 0x100) as byte];
    }
  }

  // ----- decoding what was encoded --------------------------------------------------------

  lemma SymbolReads(n: nat)
    requires n < 64
    ensures Sextet(Symbol(n)) == n
  {
  }

  /** Only the sextets matter. */
  lemma UngroupsOctets(g: string, a: byte, b: byte, c: byte)
    requires |g| == 4
    requires Sextet(g[0]) * 0x4_0000 + Sextet(g[1]) * 0x1000 + Sextet(g[2]) * 64 + Sextet(g[3])
             == a as nat * 0x1_0000 + b as nat * 0x100 + c as nat
    ensures Ungroup(g) == [a, b, c]
  {
    hide Sextet, OctetsOf;
    var t := a as nat * 0x1_0000 + b as nat * 0x100 + c as nat;
    assert Ungroup(g) == OctetsOf(t);
    hide Ungroup;
    Octets(a as nat, b as nat, c as nat);
  }

  lemma DecodesGroup(g: string, t: string)
    requires |g| == 4 && |t| % 4 == 0
    ensures Decode(g + t) == Ungroup(g) + Decode(t)
  {
    hide Ungroup, Decode;
    DecodesNext(g + t);
    assert (g + t)[..4] == g && (g + t)[4..] == t;
  }

  lemma EncodesNext(s: seq<byte>)
    requires s != []
    ensures |Encode(s)| >= 4 && Encode(s) == Encode(s)[..4] + Encode(Rest(s))
  {
    hide Symbol;
  }

  lemma FirstBytes(s: seq<byte>)
    requires s != []
    ensures |Encode(s)| % 4 == |Encode(Rest(s))| % 4 == 0
    ensures Decode(Encode(s)) == [s[0], Octet(s, 1), Octet(s, 2)] + Decode(Encode(Rest(s)))
  {
    hide Encode, Decode, Sextet, Ungroup, Octet, Rest;
    var (a, b, c) := (s[0], Octet(s, 1), Octet(s, 2));
    EncodesNext(s);
    EncodedLength(s);
    EncodedLength(Rest(s));
    FirstGroup(s);
    Regroup(a as nat, b as nat, c as nat);
    UngroupsOctets(Encode(s)[..4], a, b, c);
    DecodesGroup(Encode(s)[..4], Encode(Rest(s)));
  }

  function Zeros(n: nat): seq<byte> {
    seq(n, _ => 0)
  }

  lemma BytesThenZeros(s: seq<byte>)
    requires s != []
    ensures [s[0], Octet(s, 1), Octet(s, 2)] + (Rest(s) + Zeros(Padding(|Rest(s)|))) == s + Zeros(Padding(|s|))
  {
    if |s| > 3 {
      assert s == [s[0], s[1], s[2]] + s[3..];
    }
  }

  /** The file is the original bytes and then one zero byte for every missing byte of the last group. */
  lemma {:induction false} RoundTrip(s: seq<byte>)
    ensures |Encode(s)| % 4 == 0
    ensures Decode(Encode(s)) == s + Zeros(Padding(|s|))
    decreases |s|
  {
    hide Encode, Decode, Zeros, Padding;
    EncodedLength(s);
    if s == [] {
      DecodesNothing();
      PaddedNothing();
      NoZeros();
    } else {
      RoundTrip(Rest(s));
      FirstBytes(s);
      BytesThenZeros(s);
    }
  }

  lemma NoZeros()
    ensures Zeros(Padding(0)) == []
  {
  }

  /** The sextets of the first four characters, where padding stands for 0. */
  lemma FirstGroup(s: seq<byte>)
    requires s != []
    ensures var e := Encode(s);
            var (x, y, z) := (s[0] as nat, Octet(s, 1) as nat, Octet(s, 2) as nat);
            && |e| >= 4
            && Sextet(e[0]) == x / 4 && Sextet(e[1]) == x % 4 * 16 + y / 16
            && Sextet(e[2]) == y % 16 * 4 + z / 64 && Sextet(e[3]) == z % 64
  {
    hide Symbol;
    forall n: nat | n < 64
      ensures Sextet(Symbol(n)) == n
    {
      SymbolReads(n);
    }
    assert Sextet('=') == 0;
    hide Sextet;
  }

  /** The bytes that `output_length` counts are the original ones. */
  lemma {:induction false} FirstBytesAreTheOriginal(s: seq<byte>)
    requires s != []
    ensures |Encode(s)| % 4 == 0 && Encode(s) != "" && OutputLength(Encode(s)) == |s|
    ensures Decode(Encode(s))[..|s|] == s
    ensures Decode(Encode(s)) == s <==> |s| % 3 == 0
  {
    hide Encode, Decode;
    RoundTrip(s);
    EncodedLength(s);
    var n := |Encode(s)|;
    PaddingIsExact(s, n - 1);
    PaddingIsExact(s, n - 2);
  }

  predicate InAlphabet(c: char) {
    Symbol(Sextet(c)) == c
  }

  /** Group inverts Ungroup on the alphabet. */
  lemma Regroups(g: string)
    requires |g| == 4 && forall k :: 0 <= k < 4 ==> InAlphabet(g[k])
    ensures var s := Ungroup(g); Group(s[0], s[1], s[2]) == g
  {
    hide Symbol, Symbols, Sextet, OctetsOf;
    var (p, q, r, s) := (Sextet(g[0]), Sextet(g[1]), Sextet(g[2]), Sextet(g[3]));
    var (a, b, c) := (p * 4 + q / 16, q % 16 * 16 + r / 4, r % 4 * 64 + s);
    assert p * 0x4_0000 + q * 0x1000 + r * 64 + s == a * 0x1_0000 + b * 0x100 + c;
    Octets(a, b, c);
    Digits(p, q, r, s);
  }

  /** Text without padding reads back to itself: every such text is the encoding of its decoding. */
  lemma {:induction false} TextReadsBack(text: string)
    requires |text| % 4 == 0 && forall k :: 0 <= k < |text| ==> InAlphabet(text[k])
    ensures Encode(Decode(text)) == text
  {
    hide Ungroup, Group, Symbol, Sextet, InAlphabet;
    if text != "" {
      var (g, t) := (text[..4], text[4..]);
      var s := Ungroup(g);
      forall k | 0 <= k < |t|
        ensures InAlphabet(t[k])
      {
        assert t[k] == text[k + 4];
      }
      TextReadsBack(t);
      Regroups(g);
      GroupIsByBits(s[0], s[1], s[2]);
      assert (s + Decode(t))[3..] == Decode(t);
      assert text == g + t;
    }
  }

  /** Test vectors of section 10 of RFC 4648. */
  lemma KnownShortEncodings()
    ensures Encode([102]) == "Zg==" && Encode([102, 111]) == "Zm8="
  {
  }

  lemma KnownEncodings()
    ensures Encode([102, 111, 111]) == "Zm9v"
    ensures Encode([102, 111, 111, 98, 97, 114]) == "Zm9vYmFy"
  {
    KnownGroups();
    hide Symbol;
    assert [102 as byte, 111, 111][3..] == [];
    assert [102 as byte, 111, 111, 98, 97, 114][3..] == [98, 97, 114] && [98 as byte, 97, 114][3..] == [];
  }

  lemma KnownGroups()
    ensures Symbol(25) == 'Z' && Symbol(38) == 'm' && Symbol(61) == '9' && Symbol(47) == 'v'
    ensures Symbol(24) == 'Y' && Symbol(5) == 'F' && Symbol(50) == 'y'
  {
  }
}
