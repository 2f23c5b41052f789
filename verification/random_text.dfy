/** Turning random bytes into text the way the quiz token and the temporary
    password are made: each byte `b` becomes `chars[b % chars.length]`. The
    bytes (from `crypto.getRandomValues`) are a parameter. */
module RandomText {
  import opened Common

  newtype byte = x: int | 0 <= x < 256

  const Upper: string := "ABCDEFGHIJKLMNOPQRSTUVWXYZ"
  const Lower: string := "abcdefghijklmnopqrstuvwxyz"
  const Digits: string := "0123456789"
  const Symbols: string := "!@#$%^&*"

  /** The 62 characters a quiz access token is drawn from. */
  const TokenAlphabet: string := Upper + Lower + Digits

  /** The 70 characters a temporary password is drawn from. */
  const TempPasswordAlphabet: string := Upper + Lower + Digits + Symbols

  /** Each of the three ranges is a run of consecutive code points. */
  lemma UpperRange()
    ensures forall i :: 0 <= i < 26 ==> Upper[i] as int == 'A' as int + i
  {
  }

  lemma LowerRange()
    ensures forall i :: 0 <= i < 26 ==> Lower[i] as int == 'a' as int + i
  {
  }

  lemma DigitsRange()
    ensures forall i :: 0 <= i < 10 ==> Digits[i] as int == '0' as int + i
  {
  }

  /** The class of each position of the temporary-password alphabet. */
  lemma TempAlphabetClasses(k: nat)
    requires k < |TempPasswordAlphabet|
    ensures k < 26 <==> 'A' <= TempPasswordAlphabet[k] <= 'Z'
    ensures 26 <= k < 52 <==> 'a' <= TempPasswordAlphabet[k] <= 'z'
    ensures 52 <= k < 62 <==> '0' <= TempPasswordAlphabet[k] <= '9'
    ensures 62 <= k <==> TempPasswordAlphabet[k] in Symbols
  {
    var A := TempPasswordAlphabet;
    UpperRange();
    LowerRange();
    DigitsRange();
    if k < 26 {
      assert A[k] == Upper[k];
    } else if k < 52 {
      assert A[k] == Lower[k - 26];
    } else if k < 62 {
      assert A[k] == Digits[k - 52];
    } else {
      assert A[k] == Symbols[k - 62];
    }
  }

  /** `Array.from(bytes).map(b => chars[b % chars.length]).join('')`. */
  function Encode(bytes: seq<byte>, chars: string): (s: string)
    requires |chars| > 0
    ensures |s| == |bytes|
    ensures forall i :: 0 <= i < |s| ==> s[i] == chars[bytes[i] as int % |chars|]
  {
    if |bytes| == 0 then []
    else Encode(bytes[..|bytes| - 1], chars) + [chars[bytes[|bytes| - 1] as int % |chars|]]
  }

  /** Every character produced comes from the alphabet. */
  lemma EncodeWithinAlphabet(bytes: seq<byte>, chars: string)
    requires |chars| > 0
    ensures forall i :: 0 <= i < |bytes| ==> Encode(bytes, chars)[i] in chars
  {
  }

  /** The position of a character in the alphabet. */
  function IndexOf(chars: string, c: char): (k: nat)
    requires c in chars
    ensures k < |chars| && chars[k] == c
  {
    if chars[0] == c then 0 else 1 + IndexOf(chars[1..], c)
  }

  /** Bytes that make a given string: each character's position. */
  function BytesFor(s: string, chars: string): (bytes: seq<byte>)
    requires |chars| <= 256
    requires forall i :: 0 <= i < |s| ==> s[i] in chars
    ensures |bytes| == |s|
    ensures forall i :: 0 <= i < |s| ==> bytes[i] as int < |chars| && chars[bytes[i] as int] == s[i]
  {
    if |s| == 0 then []
    else BytesFor(s[..|s| - 1], chars) + [IndexOf(chars, s[|s| - 1]) as byte]
  }

  lemma ModOfSmaller(k: int, n: int)
    requires 0 <= k < n
    ensures k % n == k
  {
  }

  /** Every string over the alphabet is produced by some bytes: encoding the
      positions of its characters gives it back. */
  lemma EncodeBytesForRoundTrip(s: string, chars: string)
    requires 0 < |chars| <= 256
    requires forall i :: 0 <= i < |s| ==> s[i] in chars
    ensures Encode(BytesFor(s, chars), chars) == s
  {
    var b := BytesFor(s, chars);
    var e := Encode(b, chars);
    assert |e| == |s|;
    forall i | 0 <= i < |s| ensures e[i] == s[i] {
      ModOfSmaller(b[i] as int, |chars|);
    }
  }
}
