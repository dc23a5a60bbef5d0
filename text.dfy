/**
 * The ECMAScript string operations the scraper and the Cinemeta client use
 * (`trim`, `toLowerCase`, `includes`, `startsWith`, `endsWith`, `split`,
 * `substring`, `replace`, template-literal number formatting and `parseInt`),
 * over Dafny strings.
 */
module Text {

  /** The characters `String.prototype.trim` removes and the regex class `\s`
      matches: ECMAScript's WhiteSpace and LineTerminator characters. */
  predicate IsSpace(c: char) {
    c == ' ' || c == '\t' || c == '\n' || c == '\r' || c == '\U{000B}' || c == '\U{000C}'
    || c == '\U{00A0}' || c == '\U{1680}' || ('\U{2000}' <= c <= '\U{200A}')
    || c == '\U{2028}' || c == '\U{2029}' || c == '\U{202F}' || c == '\U{205F}'
    || c == '\U{3000}' || c == '\U{FEFF}'
  }

  /** The regex class `\d`. */
  predicate IsDigit(c: char) {
    '0' <= c <= '9'
  }

  /** The regex class `\w`. */
  predicate IsWordChar(c: char) {
    'a' <= c <= 'z' || 'A' <= c <= 'Z' || IsDigit(c) || c == '_'
  }

  predicate StartsWith(s: string, p: string) {
    |p| <= |s| && s[..|p|] == p
  }

  predicate EndsWith(s: string, p: string) {
    |p| <= |s| && s[|s| - |p|..] == p
  }

  /** `p` occurs in `s` at index `i`. */
  predicate OccursAt(s: string, p: string, i: nat) {
    i + |p| <= |s| && s[i..i + |p|] == p
  }

  /** `s.includes(p)`, as a scan from the left. */
  predicate Contains(s: string, p: string)
    decreases |s|
  {
    StartsWith(s, p) || (|s| > 0 && Contains(s[1..], p))
  }

  /** A string only contains strings no longer than itself. */
  lemma {:induction false} ContainsShorter(s: string, p: string)
    requires Contains(s, p)
    ensures |p| <= |s|
    decreases |s|
  {
    if !StartsWith(s, p) {
      ContainsShorter(s[1..], p);
    }
  }

  /** `s.includes(p)` holds exactly when `p` occurs at some index of `s`. */
  lemma {:induction false} ContainsIff(s: string, p: string)
    ensures Contains(s, p) <==> exists i :: 0 <= i <= |s| && OccursAt(s, p, i)
    decreases |s|
  {
    assert StartsWith(s, p) <==> OccursAt(s, p, 0) by {
      if |p| <= |s| {
        assert s[0..|p|] == s[..|p|];
      }
    }
    if |s| > 0 {
      ContainsIff(s[1..], p);
      if Contains(s[1..], p) {
        var i :| 0 <= i <= |s[1..]| && OccursAt(s[1..], p, i);
        assert s[i + 1..i + 1 + |p|] == s[1..][i..i + |p|];
        assert OccursAt(s, p, i + 1);
      }
      if exists i :: 0 <= i <= |s| && OccursAt(s, p, i) {
        var i :| 0 <= i <= |s| && OccursAt(s, p, i);
        if i > 0 {
          assert s[1..][i - 1..i - 1 + |p|] == s[i..i + |p|];
          assert OccursAt(s[1..], p, i - 1);
        }
      }
    }
  }

  /** Leading white space removed. */
  function TrimStart(s: string): (r: string)
    ensures |r| <= |s| && r == s[|s| - |r|..]
    ensures r == [] || !IsSpace(r[0])
    ensures forall i :: 0 <= i < |s| - |r| ==> IsSpace(s[i])
    decreases |s|
  {
    if |s| > 0 && IsSpace(s[0]) then TrimStart(s[1..]) else s
  }

  /** Trailing white space removed. */
  function TrimEnd(s: string): (r: string)
    ensures |r| <= |s| && r == s[..|r|]
    ensures r == [] || !IsSpace(r[|r| - 1])
    ensures forall i :: |r| <= i < |s| ==> IsSpace(s[i])
    decreases |s|
  {
    if |s| > 0 && IsSpace(s[|s| - 1]) then TrimEnd(s[..|s| - 1]) else s
  }

  /** The number of white-space characters `trim` drops at the start of `s`. */
  function TrimOffset(s: string): (k: nat)
    ensures k <= |s|
    ensures forall i :: 0 <= i < k ==> IsSpace(s[i])
    ensures k == |s| || !IsSpace(s[k])
  {
    |s| - |TrimStart(s)|
  }

  /** `r` is the piece of `s` at `k` left once the white space at both ends
      is dropped: every dropped character is white space, and the piece
      neither starts nor ends with white space. */
  predicate TrimmedAt(s: string, r: string, k: nat) {
    OccursAt(s, r, k)
    && (forall i :: 0 <= i < k ==> IsSpace(s[i]))
    && (forall i :: k + |r| <= i < |s| ==> IsSpace(s[i]))
    && (r == [] || (!IsSpace(r[0]) && !IsSpace(r[|r| - 1])))
  }

  /** `s.trim()`. Its shape is stated by `TrimShape`. */
  function Trim(s: string): (r: string)
    ensures |r| <= |s|
    ensures r == [] || (!IsSpace(r[0]) && !IsSpace(r[|r| - 1]))
    ensures s == [] || (!IsSpace(s[0]) && !IsSpace(s[|s| - 1])) ==> r == s
  {
    TrimUnchanged(s);
    TrimEnd(TrimStart(s))
  }

  /** A fixed prefix in front of a trimmed string: the part after the prefix
      has no white space at either end. */
  lemma PrefixedTrimmed(p: string, t: string)
    requires t == [] || (!IsSpace(t[0]) && !IsSpace(t[|t| - 1]))
    ensures StartsWith(p + t, p)
    ensures |p + t| == |p| || (!IsSpace((p + t)[|p|]) && !IsSpace((p + t)[|p + t| - 1]))
  {
    assert (p + t)[..|p|] == p;
  }

  /** The trimmed string is the piece of `s` after its leading white space,
      with only white space dropped at either end. */
  lemma TrimShape(s: string)
    ensures TrimmedAt(s, Trim(s), TrimOffset(s))
  {
    TrimPieceOf(s);
  }

  /** The trimmed string occurs in `s` right after its leading white space. */
  lemma TrimOccurs(s: string)
    ensures OccursAt(s, Trim(s), TrimOffset(s))
  {
    TrimShape(s);
  }

  lemma TrimPieceOf(s: string)
    ensures TrimmedAt(s, TrimEnd(TrimStart(s)), TrimOffset(s))
  {
    var t := TrimStart(s);
    var k := TrimOffset(s);
    var r := TrimEnd(t);
    SlicePiece(s, k, |r|);
    assert OccursAt(s, r, k);
    TrimTail(s, k, t, r);
  }

  /** A prefix of a suffix is a slice. */
  lemma SlicePiece(s: string, k: nat, n: nat)
    requires k <= |s| && n <= |s| - k
    ensures s[k..][..n] == s[k..k + n]
  {
  }

  lemma TrimTail(s: string, k: nat, t: string, r: string)
    requires k <= |s| && t == s[k..]
    requires |r| <= |t| && forall i :: |r| <= i < |t| ==> IsSpace(t[i])
    ensures forall i :: k + |r| <= i < |s| ==> IsSpace(s[i])
  {
    forall i | k + |r| <= i < |s| ensures IsSpace(s[i]) {
      assert s[i] == t[i - k];
    }
  }

  lemma TrimUnchanged(s: string)
    ensures s == [] || (!IsSpace(s[0]) && !IsSpace(s[|s| - 1])) ==> TrimEnd(TrimStart(s)) == s
  {
  }

  /** `toLowerCase` on one character: ASCII letters and the upper-case letters
      of Latin-1 (U+00C0 to U+00DE, except the multiplication sign U+00D7). */
  function LowerChar(c: char): char {
    if 'A' <= c <= 'Z' || ('\U{00C0}' <= c <= '\U{00DE}' && c != '\U{00D7}')
    then (c as int + 32) as char
    else c
  }

  /** `toUpperCase` on a character of the class `\w`. */
  function UpperChar(c: char): char {
    if 'a' <= c <= 'z' then (c as int - 32) as char else c
  }

  /** `s.toLowerCase()`, for the characters `LowerChar` covers. */
  function ToLower(s: string): string {
    seq(|s|, i requires 0 <= i < |s| => LowerChar(s[i]))
  }

  /** `s.replace(/x/g, y)` for a single character `x`. */
  function ReplaceChar(s: string, x: char, y: char): string {
    seq(|s|, i requires 0 <= i < |s| => if s[i] == x then y else s[i])
  }

  /** `s.substring(0, n)`. */
  function Prefix(s: string, n: nat): (r: string)
    ensures |r| <= n && StartsWith(s, r)
    ensures |s| <= n ==> r == s
    ensures |s| > n ==> |r| == n
  {
    if |s| <= n then s else s[..n]
  }

  /** The index of the first character of `s` in `seps`, or `|s|` when there is none. */
  function IndexOfAny(s: string, seps: set<char>): (k: nat)
    ensures k <= |s|
    ensures forall i :: 0 <= i < k ==> s[i] !in seps
    ensures k < |s| ==> s[k] in seps
    decreases |s|
  {
    if s == [] then 0 else if s[0] in seps then 0 else 1 + IndexOfAny(s[1..], seps)
  }

  /** `s.split(re)` for a regex that is one character class `seps`: the pieces
      between separators, empty ones included. */
  function SplitAny(s: string, seps: set<char>): (r: seq<string>)
    ensures |r| > 0
    decreases |s|
  {
    var k := IndexOfAny(s, seps);
    if k == |s| then [s] else [s[..k]] + SplitAny(s[k + 1..], seps)
  }

  /** `s.split(x)[0]` for a single character `x`. */
  function FirstPiece(s: string, x: char): (r: string)
    ensures StartsWith(s, r) && x !in r
    ensures |r| < |s| ==> s[|r|] == x
  {
    s[..IndexOfAny(s, {x})]
  }

  /** `s.replace(p, rep)` with a string pattern: only the first occurrence is replaced. */
  function ReplaceFirst(s: string, p: string, rep: string): string
    decreases |s|
  {
    if StartsWith(s, p) then rep + s[|p|..]
    else if s == [] then []
    else [s[0]] + ReplaceFirst(s[1..], p, rep)
  }

  /** `s.replace(/\b\w/g, l => l.toUpperCase())` scanning from the start of `s`;
      `afterWord` says whether the text just before `s` ends in a word character. */
  function CapitalizeFrom(s: string, afterWord: bool): (r: string)
    ensures |r| == |s|
    decreases |s|
  {
    if s == [] then []
    else [if IsWordChar(s[0]) && !afterWord then UpperChar(s[0]) else s[0]]
         + CapitalizeFrom(s[1..], IsWordChar(s[0]))
  }

  /** Exactly the word characters at a word boundary (`\b\w`) are upper-cased. */
  lemma {:induction false} CapitalizeFromAt(s: string, afterWord: bool, i: nat)
    requires i < |s|
    ensures CapitalizeFrom(s, afterWord)[i]
            == if IsWordChar(s[i]) && !(if i == 0 then afterWord else IsWordChar(s[i - 1]))
               then UpperChar(s[i]) else s[i]
    decreases i
  {
    if i > 0 {
      CapitalizeFromAt(s[1..], IsWordChar(s[0]), i - 1);
      if i > 1 {
        assert s[1..][i - 2] == s[i - 1];
      }
    }
  }

  /** `slug.replace(/-/g, ' ').replace(/\b\w/g, l => l.toUpperCase())`. */
  function TitleCaseSlug(slug: string): string {
    CapitalizeFrom(ReplaceChar(slug, '-', ' '), false)
  }

  function DigitChar(d: nat): char
    requires d < 10
  {
    ('0' as int + d) as char
  }

  function DigitValue(c: char): nat {
    if IsDigit(c) then c as int - '0' as int else 0
  }

  /** The decimal form `${n}` gives a natural number. */
  function NatToString(n: nat): (r: string)
    ensures |r| > 0
    ensures forall i :: 0 <= i < |r| ==> IsDigit(r[i])
    decreases n
  {
    if n < 10 then [DigitChar(n)] else NatToString(n / 10) + [DigitChar(n % 10)]
  }

  /** `parseInt` of a string of decimal digits. */
  function ParseDigits(ds: string): nat
    decreases |ds|
  {
    if ds == [] then 0 else ParseDigits(ds[..|ds| - 1]) * 10 + DigitValue(ds[|ds| - 1])
  }

  /** Reading back the decimal form of a number gives the number. */
  lemma {:induction false} ParseNatToString(n: nat)
    ensures ParseDigits(NatToString(n)) == n
    decreases n
  {
    if n >= 10 {
      ParseNatToString(n / 10);
      var s := NatToString(n / 10) + [DigitChar(n % 10)];
      assert s[..|s| - 1] == NatToString(n / 10);
    }
  }

  lemma NatToStringInjective(a: nat, b: nat)
    requires NatToString(a) == NatToString(b)
    ensures a == b
  {
    ParseNatToString(a);
    ParseNatToString(b);
  }

  /** Splitting at a separator found nowhere in `x`: `x` is the first piece. */
  lemma {:induction false} SplitAfterPiece(x: string, c: char, y: string)
    requires c !in x
    ensures SplitAny(x + [c] + y, {c}) == [x] + SplitAny(y, {c})
  {
    var s := x + [c] + y;
    var k := IndexOfAny(s, {c});
    assert s[|x|] == c;
    assert k == |x|;
    assert s[..k] == x && s[k + 1..] == y;
  }

  /** A string without the separator is a single piece. */
  lemma SplitNoSeparator(x: string, c: char)
    requires c !in x
    ensures SplitAny(x, {c}) == [x]
  {
  }
}
