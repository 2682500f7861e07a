/** The two pieces of java.lang the combat rules rely on: 32-bit `int`
    arithmetic, which wraps around, and `String.trim`, which strips every
    character up to and including the space character from both ends. */
module JavaLang {

  const MinInt: int := -0x8000_0000
  const MaxInt: int := 0x7fff_ffff
  const Modulus: int := 0x1_0000_0000

  /** The values of a Java `int`. */
  type Int32 = x: int | -0x8000_0000 <= x <= 0x7fff_ffff

  predicate InRange(x: int) {
    MinInt <= x <= MaxInt
  }

  /** Two's-complement reduction of a mathematical result to a Java `int`:
      what `a + b` and `a - b` compute on `int` operands. */
  function Wrap(x: int): (r: Int32)
    ensures InRange(x) ==> r == x
    ensures (r - x) % Modulus == 0
  {
    var m := (x - MinInt) % Modulus;
    WrapOffset(x - MinInt);
    m + MinInt
  }

  lemma WrapOffset(y: int)
    ensures 0 <= y % Modulus < Modulus
    ensures (y % Modulus - y) % Modulus == 0
    ensures 0 <= y < Modulus ==> y % Modulus == y
  {
  }

  /** The characters `String.trim` removes: code points up to U+0020. */
  predicate IsTrimChar(c: char) {
    c <= ' '
  }

  /** A string `trim` leaves alone that is also non-empty: what a warrior's
      name always is. */
  predicate IsTrimmedNonEmpty(s: string) {
    s != [] && !IsTrimChar(s[0]) && !IsTrimChar(s[|s| - 1])
  }

  /** The index from which `trim` keeps characters: the first index at or
      after `i` holding a non-trim character, or |s| when there is none. */
  function KeepFrom(s: string, i: nat): (k: nat)
    requires i <= |s|
    ensures i <= k <= |s|
    ensures forall j :: i <= j < k ==> IsTrimChar(s[j])
    ensures k < |s| ==> !IsTrimChar(s[k])
    decreases |s| - i
  {
    if i < |s| && IsTrimChar(s[i]) then KeepFrom(s, i + 1) else i
  }

  /** The index up to which `trim` keeps characters: scanning down from `j`
      and not below `lo`, the end of the last non-trim character. */
  function KeepUntil(s: string, lo: nat, j: nat): (k: nat)
    requires lo <= j <= |s|
    ensures lo <= k <= j
    ensures forall m :: k <= m < j ==> IsTrimChar(s[m])
    ensures k > lo ==> !IsTrimChar(s[k - 1])
    decreases j
  {
    if j > lo && IsTrimChar(s[j - 1]) then KeepUntil(s, lo, j - 1) else j
  }

  /** Java's `String.trim`: the slice between the first and the last
      character that is not a trim character. */
  function Trim(s: string): (r: string)
    ensures r == [] <==> forall i :: 0 <= i < |s| ==> IsTrimChar(s[i])
    ensures r != [] ==> IsTrimmedNonEmpty(r)
    ensures var k := KeepFrom(s, 0); k + |r| <= |s| && r == s[k..k + |r|]
    ensures var k := KeepFrom(s, 0); forall i :: k + |r| <= i < |s| ==> IsTrimChar(s[i])
  {
    var lo := KeepFrom(s, 0);
    var hi := KeepUntil(s, lo, |s|);
    s[lo..hi]
  }

  /** Trimming a string that is already trimmed changes nothing, so `trim`
      is idempotent. */
  lemma TrimIdempotent(s: string)
    ensures Trim(Trim(s)) == Trim(s)
  {
  }

  /** A trimmed non-empty string is a fixed point of `trim`, and conversely. */
  lemma TrimOfTrimmed(s: string)
    ensures IsTrimmedNonEmpty(s) <==> s != [] && Trim(s) == s
  {
  }
}
