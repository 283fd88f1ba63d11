/**
 * The text operations the mount pass uses to build virtual paths: decimal
 * formatting of an id, the synthetic overlay name, lower-casing of a
 * four-character magic tag and the extension appended to a bare name.
 */
module Names {
  import opened Results

  predicate IsDigit(c: char) {
    '0' <= c <= '9'
  }

  predicate AllDigits(s: string) {
    forall i :: 0 <= i < |s| ==> IsDigit(s[i])
  }

  function DigitChar(d: nat): (c: char)
    requires d < 10
    ensures IsDigit(c)
  {
    ('0' as int + d) as char
  }

  function DigitValue(c: char): (d: nat)
    requires IsDigit(c)
    ensures d < 10
  {
    c as int - '0' as int
  }

  /** The invariant-culture decimal text of `n`: digits only, no leading zero. */
  function DecimalString(n: nat): (s: string)
    ensures |s| > 0 && AllDigits(s)
    ensures s[0] == '0' <==> n == 0
    decreases n
  {
    if n < 10 then [DigitChar(n)] else DecimalString(n / 10) + [DigitChar(n % 10)]
  }

  /** The number a string of decimal digits denotes. */
  function ParseDecimal(s: string): nat
    requires AllDigits(s)
    decreases |s|
  {
    if s == [] then 0 else 10 * ParseDecimal(s[..|s| - 1]) + DigitValue(s[|s| - 1])
  }

  lemma {:induction false} ParseDecimalString(n: nat)
    ensures ParseDecimal(DecimalString(n)) == n
    decreases n
  {
    var s := DecimalString(n);
    if n >= 10 {
      ParseDecimalString(n / 10);
      assert s[..|s| - 1] == DecimalString(n / 10);
    }
  }

  const OverlayPrefix: string := "overlays/"
  const BinExtension: string := ".bin"

  /** The synthetic path `overlays/{id}.bin` of an overlay id. */
  function OverlayName(id: nat): (name: string)
    ensures |name| > |OverlayPrefix| + |BinExtension|
    ensures name[..|OverlayPrefix|] == OverlayPrefix && name[|name| - |BinExtension|..] == BinExtension
    ensures name[|OverlayPrefix|..|name| - |BinExtension|] == DecimalString(id)
    ensures HasExtension(name)
  {
    assert (OverlayPrefix + DecimalString(id) + BinExtension)[|OverlayPrefix| + |DecimalString(id)|] == '.';
    OverlayPrefix + DecimalString(id) + BinExtension
  }

  /** The id an overlay path was built from, if it is one. */
  function ParseOverlayName(name: string): Option<nat>
  {
    var n := |name|;
    if n > |OverlayPrefix| + |BinExtension| && name[..|OverlayPrefix|] == OverlayPrefix
       && name[n - |BinExtension|..] == BinExtension && AllDigits(name[|OverlayPrefix|..n - |BinExtension|])
    then Some(ParseDecimal(name[|OverlayPrefix|..n - |BinExtension|]))
    else None
  }

  lemma OverlayNameRoundTrip(id: nat)
    ensures ParseOverlayName(OverlayName(id)) == Some(id)
  {
    var name := OverlayName(id);
    var digits := DecimalString(id);
    var n := |name|;
    assert name[..|OverlayPrefix|] == OverlayPrefix;
    assert name[n - |BinExtension|..] == BinExtension;
    assert name[|OverlayPrefix|..n - |BinExtension|] == digits;
    ParseDecimalString(id);
  }

  /** Distinct overlay ids never share a path, so overlays cannot overwrite one another. */
  lemma OverlayNamesDistinct(a: nat, b: nat)
    requires a != b
    ensures OverlayName(a) != OverlayName(b)
  {
    OverlayNameRoundTrip(a);
    OverlayNameRoundTrip(b);
  }

  /** `char.ToLower` on the letters A to Z; every other character is kept. */
  function LowerChar(c: char): (r: char)
    ensures !('A' <= r <= 'Z')
    ensures 'A' <= c <= 'Z' ==> r as int == c as int + 32 && 'a' <= r <= 'z'
    ensures !('A' <= c <= 'Z') ==> r == c
  {
    if 'A' <= c <= 'Z' then (c as int - 'A' as int + 'a' as int) as char else c
  }

  /** `string.ToLower`, character by character. */
  function ToLower(s: string): (r: string)
    ensures |r| == |s|
    ensures forall i :: 0 <= i < |s| ==> r[i] == LowerChar(s[i])
  {
    seq(|s|, i requires 0 <= i < |s| => LowerChar(s[i]))
  }

  /** A lower-cased tag has no capital letter left, and lower-casing it again changes nothing. */
  lemma ToLowerIdempotent(s: string)
    ensures forall i :: 0 <= i < |s| ==> !('A' <= ToLower(s)[i] <= 'Z')
    ensures ToLower(ToLower(s)) == ToLower(s)
  {
  }

  /** Whether a name-table entry already carries an extension: a `.` anywhere in it. */
  predicate HasExtension(name: string) {
    '.' in name
  }

  /**
   * The repaired name of an entry without extension: the sniffed tag when the
   * registry knows it, the generic `.bin` otherwise.
   */
  function AppendExtension(name: string, tag: string, registry: set<string>): (r: string)
    ensures HasExtension(r)
    ensures |r| > |name| && r[..|name|] == name && r[|name|] == '.'
    ensures r[|name| + 1..] == if tag in registry then tag else "bin"
  {
    if tag in registry then name + "." + tag else name + BinExtension
  }
}
