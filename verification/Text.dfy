/** String forms shared by the components: lower case, digest prefixes and identifier-like keys. */
module Text {

  function LowerChar(c: char): char {
    if 'A' <= c <= 'Z' then c - 'A' + 'a' else c
  }

  function Lower(s: string): string {
    seq(|s|, i requires 0 <= i < |s| => LowerChar(s[i]))
  }

  /** A digest without the prefix that names its algorithm or its notation. */
  function StripAlgorithm(s: string): string {
    if "sha256:" <= s then s[7..] else if "0x" <= s then s[2..] else s
  }

  predicate Letter(c: char) {
    'a' <= c <= 'z' || 'A' <= c <= 'Z'
  }

  /** A letter, then at most 63 letters, digits or underscores. */
  predicate PlainKey(k: string) {
    && 1 <= |k| <= 64
    && Letter(k[0])
    && forall i :: 0 <= i < |k| ==> Letter(k[i]) || '0' <= k[i] <= '9' || k[i] == '_'
  }

  /* ---- Hashes ---- */

  /** 64 lower-case hexadecimal digits. */
  ghost predicate Hex64Digits(d: string) {
    |d| == 64 && forall i :: 0 <= i < 64 ==> d[i] in "0123456789abcdef"
  }

  /** The hash is the digest behind one of the two prefixes. */
  ghost predicate HashOf(hash: string, d: string) {
    Hex64Digits(d) && (hash == "sha256:" + d || hash == "0x" + d)
  }

  lemma DigitsHaveNoPrefix(d: string)
    requires Hex64Digits(d)
    ensures StripAlgorithm(d) == d && StripAlgorithm("sha256:" + d) == d && StripAlgorithm("0x" + d) == d
  {
    assert d[0] in "0123456789abcdef" && d[1] in "0123456789abcdef";
    assert "sha256:"[0] == 's' && "0x"[1] == 'x';
    assert ("sha256:" + d)[7..] == d && ("0x" + d)[2..] == d;
    assert ("0x" + d)[0] == '0';
  }

  lemma StripSplits(s: string)
    ensures s == StripAlgorithm(s) || s == "sha256:" + StripAlgorithm(s) || s == "0x" + StripAlgorithm(s)
    ensures "sha256:" <= s ==> s == "sha256:" + StripAlgorithm(s)
    ensures "0x" <= s ==> s == "0x" + StripAlgorithm(s)
  {
    if "0x" <= s {
      assert s[0] == '0';
    }
  }

  /** The hash names the digest: in any letter case, behind either prefix or none. */
  ghost predicate Names(hash: string, d: string) {
    Lower(hash) in {d, "sha256:" + d, "0x" + d}
  }

  lemma LowerDigits(s: string, d: string)
    requires HashOf(s, d)
    ensures Lower(s) == s
  {
    assert forall i :: 0 <= i < 64 ==> !('A' <= d[i] <= 'Z');
    assert forall i :: 0 <= i < |s| ==> !('A' <= s[i] <= 'Z');
  }
}
