/** The bump allocator of src/util.h and the writers that fill its blocks. Blocks come from one fixed
    array while it has room and from the heap afterwards. */
module MemBlocks {
  import Json
  import Percent
  import HttpDates

  /** The size of the address space: `size_t` arithmetic is modulo this. */
  const SIZE_T: nat := 0x1_0000_0000_0000_0000

  /** A piece of memory: a block, or the view a writer returns. */
  datatype Block = Block(base: array<char>, off: nat, len: nat) {
    predicate InBounds() {
      off + len <= base.Length
    }

    predicate Within(b: Block) {
      base == b.base && b.off <= off && off + len <= b.off + b.len
    }

    function Text(): (s: string)
      requires InBounds()
      reads base
      ensures |s| == len
    {
      base[off..off + len]
    }
  }

  predicate Disjoint(a: Block, b: Block) {
    a.base != b.base || a.off + a.len <= b.off || b.off + b.len <= a.off
  }

  class MemBlock {
    const data: array<char>
    var pos: nat
    var add: seq<array<char>>
    ghost var blocks: seq<Block>

    constructor (n: nat)
      ensures Valid() && blocks == [] && fresh(data) && data.Length == n
    {
      data := new char[n];
      pos := 0;
      add := [];
      blocks := [];
    }

    /** All blocks are in bounds and pairwise disjoint. */
    ghost predicate Valid()
      reads this
    {
      && pos <= data.Length
      && data !in add
      && (forall i :: 0 <= i < |blocks| ==> blocks[i].InBounds())
      && (forall i :: 0 <= i < |blocks| ==>
            if blocks[i].base == data then blocks[i].off + blocks[i].len <= pos else blocks[i].base in add)
      && (forall i, j :: 0 <= i < j < |blocks| ==> Disjoint(blocks[i], blocks[j]))
    }

    method Alloc(n: nat) returns (b: Block)
      requires Valid() && n + pos < SIZE_T
      modifies this
      ensures Valid() && blocks == old(blocks) + [b] && b.len == n
      ensures b.InBounds() && (b.base == data || fresh(b.base))
      ensures if n + old(pos) <= data.Length
              then b == Block(data, old(pos), n) && pos == old(pos) + n && add == old(add)
              else fresh(b.base) && b == Block(b.base, 0, n) && pos == old(pos) && add == old(add) + [b.base]
      ensures forall c :: c in old(blocks) ==> Disjoint(b, c)
    {
      if (n + pos) % SIZE_T <= data.Length {
        b := Block(data, pos, n);
        pos := (pos + n) % SIZE_T;
      } else {
        var rt := new char[n];
        add := add + [rt];
        b := Block(rt, 0, n);
      }
      blocks := blocks + [b];
    }
  }

  // ----- decimal numbers ------------------------------------------------------------------

  /** Division by ten as C++ rounds it. */
  function Tenth(n: int): int {
    if n < 0 then -(-n / 10) else n / 10
  }

  function Abs(n: int): nat {
    if n < 0 then -n else n
  }

  function DigitCount(n: nat): nat {
    if n == 0 then 0 else 1 + DigitCount(n / 10)
  }

  lemma {:induction false} DecimalLength(n: nat)
    ensures |Json.Decimal(n)| == if n == 0 then 1 else DigitCount(n)
    ensures forall k :: 0 <= k < |Json.Decimal(n)| ==> '0' <= Json.Decimal(n)[k] <= '9'
  {
    if n >= 10 {
      DecimalLength(n / 10);
    } else {
      assert n / 10 == 0;
    }
  }

  /** The two extra bytes are enough for a sign, or for the digit of 0, and the terminator. */
  lemma NeverTruncated(n: int)
    ensures |Json.IntText(n)| + 1 <= DigitCount(Abs(n)) + 2
    ensures '\0' !in Json.IntText(n)
  {
    DecimalLength(Abs(n));
  }

  method SizeFor(n: int) returns (size: nat)
    ensures size == DigitCount(Abs(n)) + 2
  {
    size := 2;
    var m := n;
    while m != 0
      invariant size + DigitCount(Abs(m)) == DigitCount(Abs(n)) + 2
      decreases Abs(m)
    {
      assert Abs(Tenth(m)) == Abs(m) / 10;
      m := Tenth(m);
      size := size + 1;
    }
  }

  /** `snprintf` of a whole text: cut to the size, and always terminated. */
  method Snprintf(out: array<char>, at: nat, size: nat, text: string)
    requires size > 0 && at + size <= out.Length
    modifies out
    ensures var n := if |text| < size then |text| else size - 1;
            out[at..at + n] == text[..n] && out[at + n] == '\0'
    ensures forall k :: 0 <= k < at || at + size <= k < out.Length ==> out[k] == old(out[k])
  {
    var n := if |text| < size then |text| else size - 1;
    forall i | 0 <= i < n {
      out[at + i] := text[i];
    }
    out[at + n] := '\0';
  }

  /** The view of a terminated string. */
  method CString(out: array<char>, at: nat, ghost len: nat) returns (view: Block)
    requires at + len < out.Length && out[at + len] == '\0'
    requires '\0' !in out[at..at + len]
    ensures view == Block(out, at, len)
  {
    var n := 0;
    while out[at + n] != '\0'
      invariant n <= len
      decreases len - n
    {
      n := n + 1;
    }
    view := Block(out, at, n);
  }

  /** Both `to_string`s: the view shows the number, and no other block has changed. */
  method ToString(n: int, mb: MemBlock) returns (view: Block)
    requires mb.Valid() && DigitCount(Abs(n)) + 2 + mb.pos < SIZE_T
    modifies mb, mb.data
    ensures mb.Valid() && |mb.blocks| == |old(mb.blocks)| + 1 && mb.blocks[..|old(mb.blocks)|] == old(mb.blocks)
    ensures view.Within(mb.blocks[|old(mb.blocks)|]) && view.InBounds()
    ensures view.Text() == Json.IntText(n)
    ensures forall c :: c in old(mb.blocks) ==> c.InBounds() && c.Text() == old(c.Text())
  {
    hide Json.IntText;
    var size := SizeFor(n);
    var b := mb.Alloc(size);
    NeverTruncated(n);
    var text := Json.IntText(n);
    assert text[..|text|] == text;
    Snprintf(b.base, b.off, size, text);
    view := CString(b.base, b.off, |Json.IntText(n)|);
  }

  // ----- percent decoding and dates -------------------------------------------------------

  /** `percent_decode` into a block. */
  method PercentDecode(src: string, mb: MemBlock) returns (view: Block)
    requires mb.Valid() && |src| + 1 + mb.pos < SIZE_T
    modifies mb, mb.data
    ensures mb.Valid() && |mb.blocks| == |old(mb.blocks)| + 1 && mb.blocks[..|old(mb.blocks)|] == old(mb.blocks)
    ensures view.Within(mb.blocks[|old(mb.blocks)|]) && view.InBounds()
    ensures view.Text() == Percent.Decoded(src)
    ensures forall c :: c in old(mb.blocks) ==> c.InBounds() && c.Text() == old(c.Text())
  {
    hide Percent.Decoded;
    Percent.DecodingFits(src);
    var b := mb.Alloc(|src| + 1);
    var len := Percent.PercentDecodeInto(src, b.base, b.off);
    view := Block(b.base, b.off, len);
  }

  /** `http_date` into a block of 29 bytes, all of which the date fills. */
  method HttpDate(tm: HttpDates.Tm, mb: MemBlock) returns (view: Block)
    requires mb.Valid() && 29 + mb.pos < SIZE_T && HttpDates.Printable(tm)
    modifies mb, mb.data
    ensures mb.Valid() && mb.blocks == old(mb.blocks) + [view] && view.len == 29
    ensures view.InBounds() && view.Text() == HttpDates.DateText(tm)
    ensures forall c :: c in old(mb.blocks) ==> c.InBounds() && c.Text() == old(c.Text())
  {
    hide HttpDates.DateText;
    var b := mb.Alloc(29);
    b.base[b.off] := '\0';
    ghost var before := b.base[..b.off];
    HttpDates.HttpDate(tm, b.base, b.off);
    assert b.base[b.off..b.off + 29] == b.base[..b.off + 29][b.off..];
    assert b.base[..b.off] == b.base[..b.off + 29][..b.off] == before;
    view := Block(b.base, b.off, 29);
  }
}
