/** The bytes of a page that do_no_page (mm/memory.c) reads from the executable. */
module PageImage {
  import opened PageState

  /** A word as the 32-bit number it is: flags in bits 0, 1 and 6, the page from bit 12 on. */
  function Bits(w: Word): nat {
    4096 * w.page + w.other + (if w.present then 1 else 0) + (if w.rw then 2 else 0) + (if w.dirty then 64 else 0)
  }

  lemma Times(d: nat, x: int)
    ensures x >= 1 ==> d * x >= d
    ensures x <= -1 ==> d * x + d <= 0
  {
  }

  lemma Quotient(v: nat, d: nat, q: nat, r: nat)
    requires v == d * q + r && r < d
    ensures v / d == q && v % d == r
  {
    Times(d, v / d - q);
    assert d * (v / d - q) == r - v % d;
  }

  lemma Flags(v: nat)
    ensures v % 4096 >= v % 2 + 2 * (v / 2 % 2) + 64 * (v / 64 % 2)
  {
    var v1 := v / 2;
    var v2 := v1 / 2;
    var v6 := v2 / 16;
    var v7 := v6 / 2;
    var low := v % 2 + 2 * (v1 % 2) + 4 * (v2 % 16);
    Quotient(v, 64, v6, low);
    Quotient(v, 4096, v7 / 32, low + 64 * (v6 % 2) + 128 * (v7 % 32));
  }

  function WordOf(v: nat): (w: Word)
    ensures Bits(w) == v
  {
    Flags(v);
    var p, r, d := v % 2, v / 2 % 2, v / 64 % 2;
    Word(v / 4096, p == 1, r == 1, d == 1, v % 4096 - p - 2 * r - 64 * d)
  }


  /** The k-th byte of a word, little-endian. */
  function ByteOf(w: Word, k: nat): nat {
    match k
    case 0 => Bits(w) % 256
    case 1 => Bits(w) / 0x100 % 256
    case 2 => Bits(w) / 0x1_0000 % 256
    case _ => Bits(w) / 0x100_0000 % 256
  }

  /** The word with its first n bytes kept and the others zero. */
  function Cut(w: Word, n: int): Word {
    if n >= 4 then w
    else if n == 3 then WordOf(Bits(w) % 0x100_0000)
    else if n == 2 then WordOf(Bits(w) % 0x1_0000)
    else if n == 1 then WordOf(Bits(w) % 0x100)
    else ZERO
  }

  /** A number by its bytes. */
  lemma Digits(b0: nat, b1: nat, b2: nat, r: nat)
    requires b0 < 0x100 && b1 < 0x100 && b2 < 0x100
    ensures var v := b0 + 0x100 * b1 + 0x1_0000 * b2 + 0x100_0000 * r;
      && v % 0x100 == b0 && v / 0x100 % 0x100 == b1 && v / 0x1_0000 % 0x100 == b2 && v / 0x100_0000 == r
      && v % 0x1_0000 == b0 + 0x100 * b1 && v % 0x100_0000 == b0 + 0x100 * b1 + 0x1_0000 * b2
  {
    var v := b0 + 0x100 * b1 + 0x1_0000 * b2 + 0x100_0000 * r;
    Quotient(v, 0x100, b1 + 0x100 * b2 + 0x1_0000 * r, b0);
    Quotient(v / 0x100, 0x100, b2 + 0x100 * r, b1);
    Quotient(v, 0x1_0000, b2 + 0x100 * r, b0 + 0x100 * b1);
    Quotient(v / 0x1_0000, 0x100, r, b2);
    Quotient(v, 0x100_0000, r, b0 + 0x100 * b1 + 0x1_0000 * b2);
  }

  lemma CutBytes(w: Word, n: int, k: nat)
    requires k < 4
    ensures ByteOf(Cut(w, n), k) == if k < n then ByteOf(w, k) else 0
  {
    var v := Bits(w);
    var b0, v1 := v % 0x100, v / 0x100;
    var b1, v2 := v1 % 0x100, v1 / 0x100;
    var b2, r := v2 % 0x100, v2 / 0x100;
    Digits(b0, b1, b2, r);
    if n == 3 {
      Digits(b0, b1, b2, 0);
    } else if n == 2 {
      Digits(b0, b1, 0, 0);
    } else if n == 1 {
      Digits(b0, 0, 0, 0);
    }
  }

  /** Clearing one more byte, from the top. */
  lemma CutMore(w: Word, n: int)
    ensures Cut(Cut(w, n + 1), n) == Cut(w, n)
  {
    if 0 < n < 3 {
      var v1 := Bits(w) / 0x100;
      var v2 := v1 / 0x100;
      Digits(Bits(w) % 0x100, v1 % 0x100, v2 % 0x100, v2 / 0x100);
      Digits(Bits(w) % 0x100, v1 % 0x100, v2 % 0x100, 0);
      Digits(Bits(w) % 0x100, v1 % 0x100, 0, 0);
    }
  }

  /** The first `keep` bytes of a page, and zeros. */
  function Trimmed(words: seq<Word>, keep: nat): (r: seq<Word>)
    ensures |r| == |words|
  {
    seq(|words|, j requires 0 <= j < |words| => Cut(words[j], keep - 4 * j))
  }

  lemma TrimmedWhole(words: seq<Word>, keep: nat)
    requires keep >= 4 * |words|
    ensures Trimmed(words, keep) == words
  {
  }

  lemma TrimmedBytes(words: seq<Word>, keep: nat, b: nat)
    requires b < 4 * |words|
    ensures ByteOf(Trimmed(words, keep)[b / 4], b % 4) == if b < keep then ByteOf(words[b / 4], b % 4) else 0
  {
    CutBytes(words[b / 4], keep - 4 * (b / 4), b % 4);
  }

  lemma TrimmedMore(words: seq<Word>, b: nat)
    requires b < 4 * |words|
    ensures var t := Trimmed(words, b + 1); t[b / 4 := Cut(t[b / 4], b % 4)] == Trimmed(words, b)
  {
    var t, r := Trimmed(words, b + 1), Trimmed(words, b);
    CutMore(words[b / 4], b % 4);
    forall j | 0 <= j < |words| && j != b / 4
      ensures t[j] == r[j]
    {
      assert b - 4 * j >= 4 || b + 1 - 4 * j <= 0;
    }
  }
}
