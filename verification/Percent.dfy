/** Percent decoding (src/util.cc), the form of section 2.1 of RFC 3986 with `+` for a space. Characters
    are bytes and `char` is signed. */
module Percent {
  import opened Options
  import opened Sequences
  import opened Numerals

  ghost predicate Bytes(s: string) {
    forall k :: 0 <= k < |s| ==> s[k] as int < 0x100
  }

  /** Bitwise or. */
  function Or(x: nat, y: nat): nat {
    if x == 0 then y else Or(x / 2, y / 2) * 2 + if x % 2 + y % 2 == 0 then 0 else 1
  }

  /** `from_hex` modulo 256; bytes from 0x80 are negative and go the way of the digits. */
  function FromHex(c: char): nat {
    if c <= '9' || c as int >= 0x80 then (c as int - '0' as int) % 0x100
    else if c <= 'Z' then (c as int - 'A' as int + 10) % 0x100
    else if c <= 'z' then (c as int - 'a' as int + 10) % 0x100
    else 0
  }

  function FromPair(hi: char, lo: char): char {
    (Or(FromHex(hi) * 16, FromHex(lo)) % 0x100) as char
  }

  function Decoded(s: string): string {
    if s == "" then ""
    else if s[0] == '%' then if |s| >= 3 then [FromPair(s[1], s[2])] + Decoded(s[3..]) else Decoded(s[1..])
    else [if s[0] == '+' then ' ' else s[0]] + Decoded(s[1..])
  }

  /** Decoding never grows, and keeps the length exactly when there is nothing to unescape. */
  lemma {:induction false} DecodingFits(s: string)
    ensures |Decoded(s)| <= |s|
    ensures |Decoded(s)| == |s| <==> forall k :: 0 <= k < |s| ==> s[k] != '%'
  {
    if s != "" {
      DecodingFits(s[1..]);
      if s[0] == '%' {
        if |s| >= 3 {
          DecodingFits(s[3..]);
        }
      } else {
        assert forall k :: 0 <= k < |s[1..]| ==> s[1..][k] == s[k + 1];
        assert forall k :: 0 < k < |s| ==> s[k] == s[1..][k - 1];
      }
    }
  }

  // ----- what an encoder can write --------------------------------------------------------

  /** One encoded byte: itself, `+` for a space, or two hexadecimal digits of either case. */
  datatype Piece = Plain(c: char) | Plus | Escaped(hi: char, lo: char)

  predicate IsHex(c: char) {
    HexValue(c).Some?
  }

  predicate IsPiece(p: Piece) {
    match p
    case Plain(c) => c != '%' && c != '+'
    case Plus => true
    case Escaped(hi, lo) => IsHex(hi) && IsHex(lo)
  }

  function PieceText(p: Piece): string {
    match p
    case Plain(c) => [c]
    case Plus => "+"
    case Escaped(hi, lo) => ['%', hi, lo]
  }

  function Meaning(p: Piece): char
    requires IsPiece(p)
  {
    match p
    case Plain(c) => c
    case Plus => ' '
    case Escaped(hi, lo) => (HexValue(hi).value * 16 + HexValue(lo).value) as char
  }

  function PiecesText(ps: seq<Piece>): string {
    if ps == [] then "" else PieceText(ps[0]) + PiecesText(ps[1..])
  }

  function Meanings(ps: seq<Piece>): string
    requires forall k :: 0 <= k < |ps| ==> IsPiece(ps[k])
  {
    if ps == [] then "" else [Meaning(ps[0])] + Meanings(ps[1..])
  }

  lemma OrDoubles(x: nat, y: nat)
    ensures Or(2 * x, y) == 2 * Or(x, y / 2) + y % 2
  {
    if x > 0 {
      assert 2 * x / 2 == x;
    }
  }

  lemma {:induction false} OrZero(x: nat)
    ensures Or(x, 0) == x
  {
    if x > 0 {
      OrZero(x / 2);
    }
  }

  lemma OrOfNibbles(hi: nat, lo: nat)
    requires lo < 16
    ensures Or(hi * 16, lo) == hi * 16 + lo
  {
    hide Or;
    OrZero(hi);
    OrDoubles(hi, lo / 8);
    OrDoubles(hi * 2, lo / 4);
    OrDoubles(hi * 4, lo / 2);
    OrDoubles(hi * 8, lo);
  }

  lemma HexDigitReads(c: char)
    requires IsHex(c)
    ensures FromHex(c) == HexValue(c).value
  {
  }

  lemma PairOfHexDigits(hi: char, lo: char)
    requires IsHex(hi) && IsHex(lo)
    ensures FromPair(hi, lo) == (HexValue(hi).value * 16 + HexValue(lo).value) as char
  {
    hide Or, FromHex, HexValue;
    HexDigitReads(hi);
    HexDigitReads(lo);
    OrOfNibbles(HexValue(hi).value, HexValue(lo).value);
  }

  /** Decoding inverts every way of encoding. */
  lemma {:induction false} DecodingInverts(ps: seq<Piece>)
    requires forall k :: 0 <= k < |ps| ==> IsPiece(ps[k])
    ensures Decoded(PiecesText(ps)) == Meanings(ps)
  {
    hide FromPair, HexValue;
    if ps != [] {
      DecodingInverts(ps[1..]);
      var (p, rest) := (ps[0], PiecesText(ps[1..]));
      var s := PieceText(p) + rest;
      if p.Escaped? {
        PairOfHexDigits(p.hi, p.lo);
        assert s[3..] == rest;
      } else {
        assert s[1..] == rest;
      }
    }
  }

  /** An encoder that leaves the characters of `keep` as they are. */
  function Encoded(s: string, keep: set<char>): (ps: seq<Piece>)
    requires Bytes(s) && '%' !in keep && '+' !in keep
    ensures forall k :: 0 <= k < |ps| ==> IsPiece(ps[k])
    ensures Meanings(ps) == s
  {
    if s == "" then []
    else
      var n := s[0] as int;
      [if s[0] in keep then Plain(s[0]) else Escaped(HexDigit(n / 16), HexDigit(n % 16))] + Encoded(s[1..], keep)
  }

  lemma RoundTrip(s: string, keep: set<char>)
    requires Bytes(s) && '%' !in keep && '+' !in keep
    ensures Decoded(PiecesText(Encoded(s, keep))) == s
  {
    DecodingInverts(Encoded(s, keep));
  }

  /** Text in which every percent sign starts an escape is the text of some pieces. */
  predicate WellFormed(s: string) {
    if s == "" then true
    else if s[0] == '%' then |s| >= 3 && IsHex(s[1]) && IsHex(s[2]) && WellFormed(s[3..])
    else WellFormed(s[1..])
  }

  lemma WellFormedExactlyWhenEncoded(s: string)
    ensures WellFormed(s) <==> exists ps :: (forall k :: 0 <= k < |ps| ==> IsPiece(ps[k])) && PiecesText(ps) == s
  {
    if WellFormed(s) {
      var ps := Pieces(s);
    }
    if ps :| (forall k :: 0 <= k < |ps| ==> IsPiece(ps[k])) && PiecesText(ps) == s {
      TextIsWellFormed(ps);
    }
  }

  function Pieces(s: string): (ps: seq<Piece>)
    requires WellFormed(s)
    ensures forall k :: 0 <= k < |ps| ==> IsPiece(ps[k])
    ensures PiecesText(ps) == s
  {
    if s == "" then []
    else if s[0] == '%' then [Escaped(s[1], s[2])] + Pieces(s[3..])
    else [if s[0] == '+' then Plus else Plain(s[0])] + Pieces(s[1..])
  }

  lemma {:induction false} TextIsWellFormed(ps: seq<Piece>)
    requires forall k :: 0 <= k < |ps| ==> IsPiece(ps[k])
    ensures WellFormed(PiecesText(ps))
  {
    hide IsHex;
    if ps != [] {
      TextIsWellFormed(ps[1..]);
      var (p, rest) := (ps[0], PiecesText(ps[1..]));
      var s := PieceText(p) + rest;
      if p.Escaped? {
        assert s[3..] == rest;
      } else {
        assert s[1..] == rest;
      }
    }
  }

  // ----- the decoders ---------------------------------------------------------------------

  lemma DecodesNext(s: string, i: nat)
    requires i < |s|
    ensures Decoded(s[i..]) ==
            if s[i] == '%' then
              if i + 2 < |s| then [FromPair(s[i + 1], s[i + 2])] + Decoded(s[i + 3..]) else Decoded(s[i + 1..])
            else [if s[i] == '+' then ' ' else s[i]] + Decoded(s[i + 1..])
  {
    hide FromPair;
    if i + 2 < |s| {
      assert s[i..][3..] == s[i + 3..];
    }
    assert s[i..][1..] == s[i + 1..];
  }

  /** `percent_decode` into a string. */
  method PercentDecode(src: string) returns (str: string)
    ensures str == Decoded(src)
  {
    hide Decoded, FromPair;
    assert src[0..] == src;
    DecodedEmpty();
    str := "";
    var c := 0;
    while c < |src|
      invariant 0 <= c <= |src|
      invariant Decoded(src) == str + Decoded(src[c..])
    {
      DecodesNext(src, c);
      ghost var (done, at) := (str, c);
      if src[c] == '%' {
        if c + 1 != |src| && c + 2 != |src| {
          str := str + [FromPair(src[c + 1], src[c + 2])];
          c := c + 2;
        }
      } else if src[c] == '+' {
        str := str + " ";
      } else {
        str := str + [src[c]];
      }
      c := c + 1;
      ghost var next := if src[at] != '%' then [if src[at] == '+' then ' ' else src[at]]
                        else if at + 2 < |src| then [FromPair(src[at + 1], src[at + 2])] else "";
      assert str == done + next && Decoded(src[at..]) == next + Decoded(src[c..]);
      Assoc(done, next, Decoded(src[c..]));
    }
    assert src[c..] == "";
  }

  lemma DecodedEmpty()
    ensures Decoded("") == ""
  {
  }

  /** `percent_decode` into a buffer: the text, and a terminator after it. */
  method PercentDecodeInto(src: string, out: array<char>, at: nat) returns (len: nat)
    requires at + |src| + 1 <= out.Length
    modifies out
    ensures len == |Decoded(src)| && at + len < out.Length
    ensures out[at..at + len] == Decoded(src) && out[at + len] == '\0'
    ensures forall k :: 0 <= k < at || at + |src| < k < out.Length ==> out[k] == old(out[k])
  {
    hide Decoded, FromPair;
    assert src[0..] == src;
    DecodedEmpty();
    var c, p := 0, at;
    while c < |src|
      invariant 0 <= c <= |src| && at <= p <= at + c
      invariant Decoded(src) == out[at..p] + Decoded(src[c..])
      invariant forall k :: 0 <= k < at || at + |src| < k < out.Length ==> out[k] == old(out[k])
    {
      ghost var done, from := out[at..p], p;
      c, p := PutNext(src, c, out, p);
      assert out[at..from] == done;
      assert out[at..p] == done + out[from..p];
      Assoc(done, out[from..p], Decoded(src[c..]));
    }
    assert src[c..] == "";
    assert out[at..p] == Decoded(src);
    out[p] := '\0';
    len := p - at;
  }

  /** The body of the loop. */
  method PutNext(src: string, c: nat, out: array<char>, p: nat) returns (c': nat, p': nat)
    requires c < |src| && p < out.Length
    modifies out
    ensures c < c' <= |src| && p <= p' <= p + (c' - c) && p' <= p + 1
    ensures Decoded(src[c..]) == out[p..p'] + Decoded(src[c'..])
    ensures forall k :: 0 <= k < out.Length && k != p ==> out[k] == old(out[k])
  {
    hide Decoded, FromPair;
    DecodesNext(src, c);
    c', p' := c, p;
    if src[c] == '%' {
      if c + 1 != |src| && c + 2 != |src| {
        out[p] := FromPair(src[c + 1], src[c + 2]);
        p' := p + 1;
        c' := c + 2;
      }
    } else if src[c] == '+' {
      out[p] := ' ';
      p' := p + 1;
    } else {
      out[p] := src[c];
      p' := p + 1;
    }
    c' := c' + 1;
  }

  // ----- known texts ----------------------------------------------------------------------

  /** Escapes with digits of either case. */
  lemma KnownEscapes()
    ensures Decoded("%2F") == "/" && Decoded("%2f") == "/" && Decoded("%7E") == "~"
  {
    PairOfHexDigits('2', 'F');
    PairOfHexDigits('2', 'f');
    PairOfHexDigits('7', 'E');
    hide FromPair;
    assert "%2F"[3..] == "" && "%2f"[3..] == "" && "%7E"[3..] == "";
  }

  /** A plus stands for a space; an incomplete escape loses its percent sign. */
  lemma KnownOthers()
    ensures Decoded("a+b") == "a b" && Decoded("%") == "" && Decoded("%4") == "4"
  {
    hide FromPair;
    assert "a+b"[1..] == "+b" && "+b"[1..] == "b" && "b"[1..] == "";
    assert "%"[1..] == "" && "%4"[1..] == "4" && "4"[1..] == "";
  }
}
