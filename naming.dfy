/** Output file naming and progress cadence of the sticker-set downloader.

    A sticker at position `i` of set `pack` is saved as `<pack>_<i><ext>`, where
    `<i>` is the decimal rendering of `i` (as a JavaScript template literal
    prints a non-negative integer) and `<ext>` is the extension of the remote
    file path: empty or starting with '.'. */
module Naming {

  predicate IsDigit(c: char) {
    '0' <= c <= '9'
  }

  predicate AllDigits(s: string) {
    forall k :: 0 <= k < |s| ==> IsDigit(s[k])
  }

  function DigitChar(d: nat): (c: char)
    requires d < 10
    ensures IsDigit(c)
    ensures c as int - '0' as int == d
  {
    ('0' as int + d) as char
  }

  /** Decimal rendering without leading zeros. */
  function NatToString(n: nat): (r: string)
    ensures 1 <= |r|
    ensures AllDigits(r)
    ensures n < 10 <==> |r| == 1
    ensures r[|r| - 1] as int - '0' as int == n % 10
    ensures r[0] == '0' ==> n == 0
  {
    if n < 10 then [DigitChar(n)] else NatToString(n / 10) + [DigitChar(n % 10)]
  }

  /** Reads a string of digits back as a number. */
  function ParseDigits(s: string): (n: nat)
    requires AllDigits(s)
  {
    if s == [] then 0
    else ParseDigits(s[..|s| - 1]) * 10 + (s[|s| - 1] as int - '0' as int)
  }

  /** Rendering and reading back are inverse: the rendering of distinct
      numbers differs. */
  lemma {:induction false} ParseNatToString(n: nat)
    ensures ParseDigits(NatToString(n)) == n
  {
    var r := NatToString(n);
    if n >= 10 {
      assert r[..|r| - 1] == NatToString(n / 10);
      ParseNatToString(n / 10);
    } else {
      assert r[..|r| - 1] == [];
    }
  }

  lemma NatToStringInjective(a: nat, b: nat)
    requires NatToString(a) == NatToString(b)
    ensures a == b
  {
    ParseNatToString(a);
    ParseNatToString(b);
  }

  /** What `path.extname` can return: nothing, or a suffix starting with '.'. */
  predicate IsExtension(ext: string) {
    ext == [] || ext[0] == '.'
  }

  /** The file name `<pack>_<i><ext>` of the sticker at position `i`. */
  function FileName(pack: string, i: nat, ext: string): string {
    pack + "_" + NatToString(i) + ext
  }

  /** The file name is the set name, an underscore, the decimal position and
      the extension, in that order. */
  lemma FileNameShape(pack: string, i: nat, ext: string)
    ensures var f, d := FileName(pack, i, ext), NatToString(i);
      |f| == |pack| + 1 + |d| + |ext| &&
      f[..|pack|] == pack && f[|pack|] == '_' &&
      f[|pack| + 1..|pack| + 1 + |d|] == d && f[|pack| + 1 + |d|..] == ext
  {
    var d := NatToString(i);
    var f := FileName(pack, i, ext);
    assert f == pack + ("_" + (d + ext));
  }

  /** Length of the longest prefix of `s` made of digits. */
  function DigitPrefixLength(s: string): (k: nat)
    ensures k <= |s|
    ensures AllDigits(s[..k])
    ensures k < |s| ==> !IsDigit(s[k])
  {
    if s == [] || !IsDigit(s[0]) then 0
    else
      var k := 1 + DigitPrefixLength(s[1..]);
      assert s[..k] == [s[0]] + s[1..][..k - 1];
      k
  }

  /** The digits of a file name end exactly where the extension begins. */
  lemma {:induction false} DigitPrefixOfDigitsThenExtension(d: string, e: string)
    requires AllDigits(d) && IsExtension(e)
    ensures DigitPrefixLength(d + e) == |d|
  {
    if d != [] {
      assert (d + e)[1..] == d[1..] + e;
      DigitPrefixOfDigitsThenExtension(d[1..], e);
    }
  }

  /** A run of digits followed by an extension splits in one way only. */
  lemma DigitsThenExtension(d1: string, e1: string, d2: string, e2: string)
    requires AllDigits(d1) && AllDigits(d2)
    requires IsExtension(e1) && IsExtension(e2)
    requires d1 + e1 == d2 + e2
    ensures d1 == d2 && e1 == e2
  {
    DigitPrefixOfDigitsThenExtension(d1, e1);
    DigitPrefixOfDigitsThenExtension(d2, e2);
    assert d1 == (d1 + e1)[..|d1|];
    assert d2 == (d2 + e2)[..|d2|];
    assert e1 == (d1 + e1)[|d1|..];
    assert e2 == (d2 + e2)[|d2|..];
  }

  /** Within one set, distinct positions give distinct file names, so no
      write of a run overwrites another write of the same run. */
  lemma FileNameInjective(pack: string, i: nat, e1: string, j: nat, e2: string)
    requires IsExtension(e1) && IsExtension(e2)
    requires FileName(pack, i, e1) == FileName(pack, j, e2)
    ensures i == j && e1 == e2
  {
    var p := pack + "_";
    var a, b := FileName(pack, i, e1), FileName(pack, j, e2);
    assert a == p + (NatToString(i) + e1);
    assert b == p + (NatToString(j) + e2);
    assert a[|p|..] == NatToString(i) + e1;
    assert b[|p|..] == NatToString(j) + e2;
    DigitsThenExtension(NatToString(i), e1, NatToString(j), e2);
    NatToStringInjective(i, j);
  }

  /** A progress update follows the write of position `i` out of `n` when
      `i + 1` is a multiple of five or `i` is the last position. */
  predicate ProgressDue(i: nat, n: nat) {
    (i + 1) % 5 == 0 || i == n - 1
  }

  /** The cadence never leaves five positions in a row without an update:
      from every position, one of the next five (or the last one) is due. */
  lemma ProgressGap(i: nat, n: nat)
    requires i < n
    ensures exists j :: i <= j < i + 5 && j < n && ProgressDue(j, n)
  {
    var j := i + (4 - i % 5);
    if j < n {
      assert (j + 1) % 5 == 0;
      assert ProgressDue(j, n);
    } else {
      assert ProgressDue(n - 1, n);
    }
  }

  /** The last position is always due; any other due position is one where a
      multiple of five stickers has been visited. */
  lemma ProgressDueCharacterized(i: nat, n: nat)
    requires i < n
    ensures ProgressDue(i, n) <==> (i == n - 1 || exists m: nat :: i + 1 == 5 * m)
  {
    if (i + 1) % 5 == 0 {
      assert i + 1 == 5 * ((i + 1) / 5);
    }
  }

  /** With twelve stickers, updates follow positions 4, 9 and 11 only. */
  lemma TwelveStickerCadence(i: nat)
    requires i < 12
    ensures ProgressDue(i, 12) <==> i == 4 || i == 9 || i == 11
  {
  }
}
