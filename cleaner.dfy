/** Repair of the sender's near-JSON text (src/processor/cleaner.rs).

    `clean` runs five `replace_all` rewrites in a fixed order. Each regular
    expression is re-expressed as a matcher that says whether a match starts
    at a given index (and where it ends, and what replaces it); `ReplaceAll`
    is the engine's left-to-right scan for non-overlapping matches, resuming
    at the end of each match. Look-behind and look-ahead read the string being
    scanned, as they do in the engine. */
module Cleaner {
  import opened Wrappers
  import opened Errors
  import opened Text

  // ---------------------------------------------------------------------------
  // Character classes
  // ---------------------------------------------------------------------------

  /** `[\x00-\x1F\x7F]` */
  predicate IsControl(c: char) {
    c as int <= 0x1F || c as int == 0x7F
  }

  predicate NoControl(s: string) {
    forall i :: 0 <= i < |s| ==> !IsControl(s[i])
  }

  predicate IsAsciiLetter(c: char) {
    IsAsciiUpper(c) || IsAsciiLower(c)
  }

  /** `\w` (read as ASCII: letters, digits and underscore). */
  predicate IsWordChar(c: char) {
    IsAsciiLetter(c) || IsDigit(c) || c == '_'
  }

  /** `\s`: the Unicode White_Space property. */
  predicate IsSpace(c: char) {
    var n := c as int;
    (0x09 <= n <= 0x0D) || n == 0x20 || n == 0x85 || n == 0xA0 || n == 0x1680
    || (0x2000 <= n <= 0x200A) || n == 0x2028 || n == 0x2029 || n == 0x202F
    || n == 0x205F || n == 0x3000
  }

  /** `[+\-]` */
  predicate IsSign(c: char) {
    c == '+' || c == '-'
  }

  /** Case-insensitive comparison under `(?i)` for the letters of the
      keywords, which fold only with their ASCII counterparts. */
  function LowerAscii(c: char): (l: char)
    ensures IsAsciiLetter(c) <==> IsAsciiLower(l)
    ensures !IsAsciiLetter(c) ==> l == c
  {
    if IsAsciiUpper(c) then (c as int + 32) as char else c
  }

  // ---------------------------------------------------------------------------
  // Step 1: control characters
  // ---------------------------------------------------------------------------

  /** `remove_control_chars`: every control character deleted. */
  function RemoveControlChars(s: string): (r: string)
    ensures NoControl(r)
    ensures |r| <= |s|
  {
    if s == [] then [] else KeptChar(s[0]) + RemoveControlChars(s[1..])
  }

  /** What `remove_control_chars` keeps of one character. */
  function KeptChar(c: char): string {
    if IsControl(c) then [] else [c]
  }

  /** Deleting distributes over concatenation, so the kept characters stay in
      their original order. */
  lemma {:induction false} RemoveControlCharsAppend(a: string, b: string)
    ensures RemoveControlChars(a + b) == RemoveControlChars(a) + RemoveControlChars(b)
  {
    if a == [] {
      assert a + b == b;
    } else {
      RemoveControlCharsAppend(a[1..], b);
      RemoveControlCharsHead(a, b);
      RegroupAfterHead(RemoveControlChars(a + b), KeptChar(a[0]), RemoveControlChars(a[1..] + b),
        RemoveControlChars(a), RemoveControlChars(a[1..]), RemoveControlChars(b));
    }
  }

  lemma RemoveControlCharsHead(a: string, b: string)
    requires a != []
    ensures RemoveControlChars(a + b) == KeptChar(a[0]) + RemoveControlChars(a[1..] + b)
  {
    assert (a + b)[0] == a[0];
    assert (a + b)[1..] == a[1..] + b;
  }

  /** Exactly the control characters are deleted: every other character
      occurs in the output as often as in the input. */
  lemma {:induction false} RemoveControlCharsCounts(s: string, x: char)
    ensures multiset(RemoveControlChars(s))[x] == if IsControl(x) then 0 else multiset(s)[x]
  {
    if s != [] {
      RemoveControlCharsCounts(s[1..], x);
      SuffixFrom(s, 0);
      assert multiset(s) == multiset([s[0]]) + multiset(s[1..]);
      assert multiset(RemoveControlChars(s)) == multiset(KeptChar(s[0])) + multiset(RemoveControlChars(s[1..]));
    }
  }

  /** The text is left alone exactly when it holds no control character. */
  lemma {:induction false} RemoveControlCharsIdentity(s: string)
    ensures RemoveControlChars(s) == s <==> NoControl(s)
  {
    if s != [] {
      RemoveControlCharsIdentity(s[1..]);
      if NoControl(s) {
        assert NoControl(s[1..]) by {
          forall i | 0 <= i < |s[1..]| ensures !IsControl(s[1..][i]) {
            assert s[1..][i] == s[i + 1];
          }
        }
        assert s == [s[0]] + s[1..];
      }
    }
  }

  // ---------------------------------------------------------------------------
  // Matchers for steps 2 to 5
  // ---------------------------------------------------------------------------

  /** The four patterns that replace matches (steps 2 to 5). */
  datatype Rule =
    | NanToken       // (?i)(?<!\w)[+\-]?nan(?!\w)                  -> null
    | InfinityToken  // (?i)(?<!\w)[+\-]?(?:inf|infinity)(?!\w)     -> null
    | ObjectDecimal  // (":\s*-?\d+),(\d+)                          -> $1.$2
    | ArrayDecimal   // (\[|,\s*)(-?\d+),(\d+)(?=[,\]])             -> $1$2.$3

  /** A match: the index just past it, and its replacement text. */
  datatype Match = Match(end: nat, text: string)

  /** `kw` (lower case) occurs at `k`, compared case-insensitively. */
  predicate KeywordAt(s: string, k: nat, kw: string) {
    k + |kw| <= |s| && forall j :: 0 <= j < |kw| ==> KeywordCharAt(s, k, kw, j)
  }

  /** Character `j` of `kw` matches `s` at `k + j`. */
  predicate KeywordCharAt(s: string, k: nat, kw: string, j: nat) {
    k + j < |s| && j < |kw| && LowerAscii(s[k + j]) == kw[j]
  }

  /** `(?!\w)` at index `e`. */
  predicate WordEnds(s: string, e: nat)
    requires e <= |s|
  {
    e == |s| || !IsWordChar(s[e])
  }

  /** `(?<!\w)` at index `q`. */
  predicate WordStarts(s: string, q: nat)
    requires q <= |s|
  {
    q == 0 || !IsWordChar(s[q - 1])
  }

  /** A NaN or infinity token starting at `q`. The optional sign is taken
      greedily; when it is present the keyword must follow it (without it the
      keyword would have to start with the sign). `inf` is tried before
      `infinity`, and the look-ahead decides between them. */
  function TokenMatch(rule: Rule, s: string, q: nat): (m: Option<Match>)
    requires rule.NanToken? || rule.InfinityToken?
    requires q < |s|
    ensures m.Some? ==> q < m.value.end <= |s| && m.value.text == "null"
  {
    if !WordStarts(s, q) then None
    else
      var k := if IsSign(s[q]) then q + 1 else q;
      if rule.NanToken? then
        if KeywordAt(s, k, "nan") && WordEnds(s, k + 3) then Some(Match(k + 3, "null")) else None
      else if KeywordAt(s, k, "inf") && WordEnds(s, k + 3) then Some(Match(k + 3, "null"))
      else if KeywordAt(s, k, "infinity") && WordEnds(s, k + 8) then Some(Match(k + 8, "null"))
      else None
  }

  predicate SpaceAt(s: string, k: nat) {
    k < |s| && IsSpace(s[k])
  }

  predicate DigitAt(s: string, k: nat) {
    k < |s| && IsDigit(s[k])
  }

  /** The first index at or after `i` that is not white space. */
  function SkipSpaces(s: string, i: nat): (j: nat)
    requires i <= |s|
    ensures i <= j <= |s|
    ensures forall k :: i <= k < j ==> SpaceAt(s, k)
    ensures j == |s| || !IsSpace(s[j])
    decreases |s| - i
  {
    if i == |s| || !IsSpace(s[i]) then i else SkipSpaces(s, i + 1)
  }

  /** The first index at or after `i` that is not a digit. */
  function SkipDigits(s: string, i: nat): (j: nat)
    requires i <= |s|
    ensures i <= j <= |s|
    ensures forall k :: i <= k < j ==> DigitAt(s, k)
    ensures j == |s| || !IsDigit(s[j])
    decreases |s| - i
  {
    if i == |s| || !IsDigit(s[i]) then i else SkipDigits(s, i + 1)
  }

  /** The white space from `i` up to `j`, and none at `j`: what the greedy
      `\s*` takes at `i`. */
  predicate SpaceRun(s: string, i: nat, j: nat) {
    i <= j <= |s| && (forall k :: i <= k < j ==> SpaceAt(s, k)) && (j == |s| || !IsSpace(s[j]))
  }

  /** The introducer of a decimal pattern from `q` up to `a`, where its
      number part starts: `":\s*` for the object rule, `[` or `,\s*` for the
      array rule. */
  predicate Introducer(rule: Rule, s: string, q: nat, a: nat) {
    if rule.ObjectDecimal? then
      q + 1 < |s| && s[q] == '"' && s[q + 1] == ':' && SpaceRun(s, q + 2, a)
    else
      q < |s| && ((s[q] == '[' && a == q + 1) || (s[q] == ',' && SpaceRun(s, q + 1, a)))
  }

  /** Where the number part `-?\d+,\d+` starts: after `":\s*` for the object
      rule, after `[` or `,\s*` for the array rule. */
  function NumberStart(rule: Rule, s: string, q: nat): (a: Option<nat>)
    requires rule.ObjectDecimal? || rule.ArrayDecimal?
    requires q < |s|
    ensures a.Some? ==> q < a.value <= |s| && Introducer(rule, s, q, a.value)
    ensures rule.ObjectDecimal? ==> (a.Some? <==> q + 1 < |s| && s[q] == '"' && s[q + 1] == ':')
    ensures rule.ArrayDecimal? ==> (a.Some? <==> s[q] == '[' || s[q] == ',')
  {
    if rule.ObjectDecimal? then
      if q + 1 < |s| && s[q] == '"' && s[q + 1] == ':' then Some(SkipSpaces(s, q + 2)) else None
    else if s[q] == '[' then Some(q + 1)
    else if s[q] == ',' then Some(SkipSpaces(s, q + 1))
    else None
  }

  /** A comma-decimal starting at `q`: the text up to the comma is kept, the
      comma becomes a dot, the fraction digits are kept. The array rule also
      needs a `,` or `]` right after the fraction, which it does not consume.
      Every quantifier here is greedy and no backtracking can help: a shorter
      digit or space run would leave a digit or a space where the pattern
      needs something else. */
  function DecimalMatch(rule: Rule, s: string, q: nat): (m: Option<Match>)
    requires rule.ObjectDecimal? || rule.ArrayDecimal?
    requires q < |s|
    ensures m.Some? ==> q < m.value.end <= |s|
  {
    match NumberStart(rule, s, q)
    case None => None
    case Some(a) =>
      var b := if a < |s| && s[a] == '-' then a + 1 else a;
      var c := SkipDigits(s, b);
      if c == b || c == |s| || s[c] != ',' then None
      else
        var e := SkipDigits(s, c + 1);
        if e == c + 1 then None
        else if rule.ArrayDecimal? && (e == |s| || (s[e] != ',' && s[e] != ']')) then None
        else Some(Match(e, s[q..c] + "." + s[c + 1..e]))
  }

  /** Character `j` of the replacement `m.text` for a match at `q` is one
      of the letters of `null` or a dot, or the character it replaces. */
  predicate NewOrKept(s: string, q: nat, m: Match, j: nat) {
    j < |m.text| && (m.text[j] in "null." || (j < m.end - q && q + j < |s| && m.text[j] == s[q + j]))
  }

  /** The match of `rule` starting at index `q`, if there is one. Every
      character of a replacement is either the character it replaces or one
      of the letters of `null` or a dot. */
  function MatchAt(rule: Rule, s: string, q: nat): (m: Option<Match>)
    requires q < |s|
    ensures m.Some? ==> q < m.value.end <= |s|
    ensures m.Some? ==> forall j :: 0 <= j < |m.value.text| ==> NewOrKept(s, q, m.value, j)
    ensures m.Some? && (rule.ObjectDecimal? || rule.ArrayDecimal?) ==> |m.value.text| == m.value.end - q
  {
    if rule.NanToken? || rule.InfinityToken? then TokenMatch(rule, s, q)
    else
      match DecimalMatch(rule, s, q)
      case None => None
      case Some(m) => DecimalMatchShape(rule, s, q); Some(m)
  }

  /** `replace_all` from index `p`: the leftmost match is replaced and the
      scan resumes after it; where no match starts, the character is kept. */
  function ReplaceAll(rule: Rule, s: string, p: nat): (r: string)
    requires p <= |s|
    ensures rule.ObjectDecimal? || rule.ArrayDecimal? ==> |r| == |s| - p
    decreases |s| - p
  {
    if p == |s| then []
    else match MatchAt(rule, s, p)
      case Some(m) => m.text + ReplaceAll(rule, s, m.end)
      case None => [s[p]] + ReplaceAll(rule, s, p + 1)
  }

  /** No match of `rule` starts anywhere at or after `p`. */
  predicate NoMatchFrom(rule: Rule, s: string, p: nat) {
    forall q :: p <= q < |s| ==> Unmatched(rule, s, q)
  }

  /** No match of `rule` starts at `q`. */
  predicate Unmatched(rule: Rule, s: string, q: nat)
    requires q < |s|
  {
    MatchAt(rule, s, q).None?
  }

  // ---------------------------------------------------------------------------
  // Steps 2 to 5
  // ---------------------------------------------------------------------------

  /** `replace_nan` */
  function ReplaceNan(s: string): (r: string)
    ensures r == s <==> NoMatchFrom(NanToken, s, 0)
    ensures NoControl(s) ==> NoControl(r)
  {
    ReplaceAllIdentity(NanToken, s, 0);
    assert NoControl(s) ==> NoControl(ReplaceAll(NanToken, s, 0)) by {
      if NoControl(s) {
        ReplaceAllKeepsNoControl(NanToken, s, 0);
      }
    }
    ReplaceAll(NanToken, s, 0)
  }

  /** `replace_infinity` */
  function ReplaceInfinity(s: string): (r: string)
    ensures r == s <==> NoMatchFrom(InfinityToken, s, 0)
    ensures NoControl(s) ==> NoControl(r)
  {
    ReplaceAllIdentity(InfinityToken, s, 0);
    assert NoControl(s) ==> NoControl(ReplaceAll(InfinityToken, s, 0)) by {
      if NoControl(s) {
        ReplaceAllKeepsNoControl(InfinityToken, s, 0);
      }
    }
    ReplaceAll(InfinityToken, s, 0)
  }

  /** `fix_decimal_obj` */
  function FixDecimalObj(s: string): (r: string)
    ensures r == s <==> NoMatchFrom(ObjectDecimal, s, 0)
    ensures DotsForCommas(s, 0, r)
  {
    ReplaceAllIdentity(ObjectDecimal, s, 0);
    DecimalFixPointwise(ObjectDecimal, s, 0);
    ReplaceAll(ObjectDecimal, s, 0)
  }

  /** `fix_decimal_arr` */
  function FixDecimalArr(s: string): (r: string)
    ensures r == s <==> NoMatchFrom(ArrayDecimal, s, 0)
    ensures DotsForCommas(s, 0, r)
  {
    ReplaceAllIdentity(ArrayDecimal, s, 0);
    DecimalFixPointwise(ArrayDecimal, s, 0);
    ReplaceAll(ArrayDecimal, s, 0)
  }

  /** `clean`: the five stages, each on the previous stage's output. It never
      fails. */
  function Clean(s: string): (r: Result<string, VitalError>)
    ensures r.Ok?
    ensures r.value == FixDecimalArr(FixDecimalObj(ReplaceInfinity(ReplaceNan(RemoveControlChars(s)))))
  {
    var noControl := RemoveControlChars(s);
    var noNan := ReplaceNan(noControl);
    var noInfinity := ReplaceInfinity(noNan);
    var objectDecimals := FixDecimalObj(noInfinity);
    Ok(FixDecimalArr(objectDecimals))
  }

  // ---------------------------------------------------------------------------
  // Properties of the matchers
  // ---------------------------------------------------------------------------

  /** A comma with a digit on each side. */
  predicate DigitCommaDigitAt(s: string, i: nat) {
    0 < i < |s| - 1 && s[i] == ',' && IsDigit(s[i - 1]) && IsDigit(s[i + 1])
  }

  /** A decimal match keeps its length and changes exactly one character: a
      comma between two digits becomes a dot. */
  lemma DecimalMatchShape(rule: Rule, s: string, q: nat)
    requires rule.ObjectDecimal? || rule.ArrayDecimal?
    requires q < |s|
    requires DecimalMatch(rule, s, q).Some?
    ensures var m := DecimalMatch(rule, s, q).value;
      |m.text| == m.end - q
      && (forall j :: 0 <= j < |m.text| ==>
            m.text[j] == s[q + j] || (m.text[j] == '.' && j + 1 < |m.text| && DigitCommaDigitAt(s, q + j)))
      && (exists j :: 0 <= j < |m.text| && m.text[j] != s[q + j])
  {
    var a := NumberStart(rule, s, q).value;
    var b := if a < |s| && s[a] == '-' then a + 1 else a;
    var c := SkipDigits(s, b);
    var e := SkipDigits(s, c + 1);
    var m := DecimalMatch(rule, s, q).value;
    assert m.text == s[q..c] + "." + s[c + 1..e];
    assert DigitAt(s, c - 1) && DigitAt(s, c + 1);
    assert DigitCommaDigitAt(s, c);
    forall j | 0 <= j < |m.text|
      ensures m.text[j] == s[q + j] || (m.text[j] == '.' && j + 1 < |m.text| && DigitCommaDigitAt(s, q + j))
    {
      CommaToDotAt(s, q, c, e, j);
    }
    assert m.text[c - q] != s[q + (c - q)];
  }

  /** Character `j` of `s[q..c] + "." + s[c + 1..e]` is the character it
      replaces, or the dot in place of the comma at `c`. */
  lemma CommaToDotAt(s: string, q: nat, c: nat, e: nat, j: nat)
    requires q <= c && c + 1 < e <= |s| && DigitCommaDigitAt(s, c)
    requires j < e - q
    ensures var text := s[q..c] + "." + s[c + 1..e];
      text[j] == s[q + j] || (text[j] == '.' && j + 1 < |text| && DigitCommaDigitAt(s, q + j))
  {
    var text := s[q..c] + "." + s[c + 1..e];
    if j < c - q {
      assert text[j] == s[q..c][j];
    } else if j > c - q {
      assert text[j] == s[c + 1..e][j - (c - q) - 1];
    } else {
      assert text[j] == '.';
    }
  }

  /** Every match changes its text: the replacement differs from the matched
      characters somewhere. */
  lemma MatchChanges(rule: Rule, s: string, q: nat)
    requires q < |s|
    requires MatchAt(rule, s, q).Some?
    ensures var m := MatchAt(rule, s, q).value;
      exists j :: 0 <= j < |m.text| && j < m.end - q && m.text[j] != s[q + j]
  {
    var m := MatchAt(rule, s, q).value;
    if rule.NanToken? || rule.InfinityToken? {
      var k := if IsSign(s[q]) then q + 1 else q;
      if k == q + 1 {
        assert m.text[0] != s[q + 0];
      } else if rule.NanToken? || (KeywordAt(s, k, "inf") && WordEnds(s, k + 3)) {
        if rule.NanToken? {
          assert KeywordCharAt(s, q, "nan", 1);
          assert m.text[1] != s[q + 1];
        } else {
          assert KeywordCharAt(s, q, "inf", 0);
          assert m.text[0] != s[q + 0];
        }
      } else {
        assert KeywordCharAt(s, q, "infinity", 0);
        assert m.text[0] != s[q + 0];
      }
    } else {
      DecimalMatchShape(rule, s, q);
    }
  }

  // ---------------------------------------------------------------------------
  // Properties of the scan
  // ---------------------------------------------------------------------------

  /** A stage leaves the text unchanged exactly when its pattern matches
      nowhere. */
  lemma {:induction false} ReplaceAllIdentity(rule: Rule, s: string, p: nat)
    requires p <= |s|
    ensures ReplaceAll(rule, s, p) == s[p..] <==> NoMatchFrom(rule, s, p)
    decreases |s| - p
  {
    if p < |s| {
      ReplaceAllIdentity(rule, s, p + 1);
      IdentityStep(rule, s, p);
    } else {
      assert ReplaceAll(rule, s, p) == [] == s[p..];
    }
  }

  /** The step of `ReplaceAllIdentity`. */
  lemma IdentityStep(rule: Rule, s: string, p: nat)
    requires p < |s|
    requires ReplaceAll(rule, s, p + 1) == s[p + 1..] <==> NoMatchFrom(rule, s, p + 1)
    ensures ReplaceAll(rule, s, p) == s[p..] <==> NoMatchFrom(rule, s, p)
  {
    if MatchAt(rule, s, p).Some? {
      ReplaceAllChangedAtMatch(rule, s, p);
      assert !Unmatched(rule, s, p);
    } else {
      KeptIdentityStep(rule, s, p);
      UnmatchedStep(rule, s, p);
    }
  }

  /** Where no match starts at `p`, the scan from `p` leaves the text alone
      exactly when the scan from `p + 1` does. */
  lemma KeptIdentityStep(rule: Rule, s: string, p: nat)
    requires p < |s| && MatchAt(rule, s, p).None?
    ensures (ReplaceAll(rule, s, p) == s[p..]) <==> (ReplaceAll(rule, s, p + 1) == s[p + 1..])
  {
    ReplaceAllKeptStep(rule, s, p);
    SuffixFrom(s, p);
    PrependCancels(s[p], ReplaceAll(rule, s, p), ReplaceAll(rule, s, p + 1), s[p..], s[p + 1..]);
  }

  lemma SuffixFrom(s: string, p: nat)
    requires p < |s|
    ensures s[p..] == [s[p]] + s[p + 1..]
  {
  }

  lemma UnmatchedStep(rule: Rule, s: string, p: nat)
    requires p < |s| && Unmatched(rule, s, p)
    ensures NoMatchFrom(rule, s, p) <==> NoMatchFrom(rule, s, p + 1)
  {
  }

  /** Texts starting with the same character are equal exactly when their
      tails are. */
  lemma PrependCancels(c: char, a: string, x: string, b: string, y: string)
    requires a == [c] + x && b == [c] + y
    ensures a == b <==> x == y
  {
    if a == b {
      assert x == a[1..];
      assert y == b[1..];
    }
  }

  lemma ReplaceAllChangedAtMatch(rule: Rule, s: string, p: nat)
    requires p < |s|
    requires MatchAt(rule, s, p).Some?
    ensures ReplaceAll(rule, s, p) != s[p..]
  {
    var m := MatchAt(rule, s, p).value;
    var r := ReplaceAll(rule, s, p);
    assert r == m.text + ReplaceAll(rule, s, m.end);
    MatchChanges(rule, s, p);
    var j :| 0 <= j < |m.text| && j < m.end - p && m.text[j] != s[p + j];
    assert r[j] == m.text[j];
    assert s[p..][j] == s[p + j];
  }

  /** No stage introduces a control character. */
  lemma {:induction false} ReplaceAllKeepsNoControl(rule: Rule, s: string, p: nat)
    requires p <= |s|
    requires NoControl(s)
    ensures NoControl(ReplaceAll(rule, s, p))
    decreases |s| - p
  {
    if p < |s| {
      match MatchAt(rule, s, p)
      case Some(m) =>
        ReplaceAllKeepsNoControl(rule, s, m.end);
        assert NoControl(m.text) by {
          forall j | 0 <= j < |m.text| ensures !IsControl(m.text[j]) {
            assert NewOrKept(s, p, m, j);
            if m.text[j] in "null." {
              assert m.text[j] in {'n', 'u', 'l', '.'};
            }
          }
        }
        NoControlAppend(m.text, ReplaceAll(rule, s, m.end));
      case None =>
        ReplaceAllKeepsNoControl(rule, s, p + 1);
        NoControlAppend([s[p]], ReplaceAll(rule, s, p + 1));
    }
  }

  lemma NoControlAppend(a: string, b: string)
    requires NoControl(a) && NoControl(b)
    ensures NoControl(a + b)
  {
    forall i | 0 <= i < |a + b| ensures !IsControl((a + b)[i]) {
      if i >= |a| {
        assert (a + b)[i] == b[i - |a|];
      }
    }
  }

  /** Character `i` of `s`, read at `i - p` in `r`, is kept, or is a comma
      between two digits that has become a dot. */
  predicate DotOrSame(s: string, p: nat, r: string, i: nat) {
    p <= i < |s| && i - p < |r| && (r[i - p] == s[i] || (r[i - p] == '.' && DigitCommaDigitAt(s, i)))
  }

  /** `r` stands for `s[p..e]`, with some commas between digits made dots. */
  predicate DotsForCommasBetween(s: string, p: nat, e: nat, r: string) {
    p <= e && |r| == e - p && forall i :: p <= i < e ==> DotOrSame(s, p, r, i)
  }

  /** `r` stands for `s[p..]`, with some commas between digits made dots. */
  predicate DotsForCommas(s: string, p: nat, r: string) {
    DotsForCommasBetween(s, p, |s|, r)
  }

  lemma DotsForCommasAppend(s: string, p: nat, mid: nat, e: nat, a: string, b: string)
    requires DotsForCommasBetween(s, p, mid, a)
    requires DotsForCommasBetween(s, mid, e, b)
    ensures DotsForCommasBetween(s, p, e, a + b)
  {
    var r := a + b;
    forall i | p <= i < e ensures DotOrSame(s, p, r, i) {
      if i < mid {
        assert r[i - p] == a[i - p];
        assert DotOrSame(s, p, a, i);
      } else {
        assert r[i - p] == b[i - mid];
        assert DotOrSame(s, mid, b, i);
      }
    }
  }

  /** The replacement text of one decimal match, in the terms of
      `DotsForCommas`. */
  lemma DecimalMatchDotsForCommas(rule: Rule, s: string, p: nat)
    requires rule.ObjectDecimal? || rule.ArrayDecimal?
    requires p < |s|
    requires MatchAt(rule, s, p).Some?
    ensures var m := MatchAt(rule, s, p).value;
      DotsForCommasBetween(s, p, m.end, m.text)
  {
    var m := MatchAt(rule, s, p).value;
    DecimalMatchShape(rule, s, p);
    forall i | p <= i < m.end ensures DotOrSame(s, p, m.text, i) {
      var j := i - p;
      assert m.text[j] == s[p + j] || (m.text[j] == '.' && j + 1 < |m.text| && DigitCommaDigitAt(s, p + j));
    }
  }

  /** The decimal stages keep the length and change only commas standing
      between two digits, each into a dot. */
  lemma {:induction false} DecimalFixPointwise(rule: Rule, s: string, p: nat)
    requires rule.ObjectDecimal? || rule.ArrayDecimal?
    requires p <= |s|
    ensures DotsForCommas(s, p, ReplaceAll(rule, s, p))
    decreases |s| - p
  {
    if p < |s| {
      match MatchAt(rule, s, p)
      case Some(m) =>
        DecimalFixPointwise(rule, s, m.end);
        DecimalFixAtMatch(rule, s, p);
      case None =>
        DecimalFixPointwise(rule, s, p + 1);
        DecimalFixKept(rule, s, p);
    }
  }

  /** One step of the scan where a match starts. */
  lemma ReplaceAllMatchStep(rule: Rule, s: string, p: nat)
    requires p < |s| && MatchAt(rule, s, p).Some?
    ensures var m := MatchAt(rule, s, p).value;
      ReplaceAll(rule, s, p) == m.text + ReplaceAll(rule, s, m.end)
  {
  }

  /** One step of the scan where no match starts. */
  lemma ReplaceAllKeptStep(rule: Rule, s: string, p: nat)
    requires p < |s| && MatchAt(rule, s, p).None?
    ensures ReplaceAll(rule, s, p) == [s[p]] + ReplaceAll(rule, s, p + 1)
  {
  }

  /** The step of `DecimalFixPointwise` at a match. */
  lemma DecimalFixAtMatch(rule: Rule, s: string, p: nat)
    requires rule.ObjectDecimal? || rule.ArrayDecimal?
    requires p < |s| && MatchAt(rule, s, p).Some?
    requires var m := MatchAt(rule, s, p).value;
      DotsForCommas(s, m.end, ReplaceAll(rule, s, m.end))
    ensures DotsForCommas(s, p, ReplaceAll(rule, s, p))
  {
    var m := MatchAt(rule, s, p).value;
    DecimalMatchDotsForCommas(rule, s, p);
    ReplaceAllMatchStep(rule, s, p);
    DotsForCommasAppend(s, p, m.end, |s|, m.text, ReplaceAll(rule, s, m.end));
  }

  /** The step of `DecimalFixPointwise` where no match starts. */
  lemma DecimalFixKept(rule: Rule, s: string, p: nat)
    requires p < |s| && MatchAt(rule, s, p).None?
    requires DotsForCommas(s, p + 1, ReplaceAll(rule, s, p + 1))
    ensures DotsForCommas(s, p, ReplaceAll(rule, s, p))
  {
    ReplaceAllKeptStep(rule, s, p);
    assert DotOrSame(s, p, [s[p]], p);
    DotsForCommasAppend(s, p, p + 1, |s|, [s[p]], ReplaceAll(rule, s, p + 1));
  }

  /** Every decimal match rests on a digit-comma-digit sequence. */
  lemma DecimalMatchNeedsDigitCommaDigit(rule: Rule, s: string, q: nat)
    requires rule.ObjectDecimal? || rule.ArrayDecimal?
    requires q < |s|
    ensures MatchAt(rule, s, q).Some? ==>
      exists i :: q <= i < MatchAt(rule, s, q).value.end && DigitCommaDigitAt(s, i)
  {
    if DecimalMatch(rule, s, q).Some? {
      DecimalMatchShape(rule, s, q);
      var m := DecimalMatch(rule, s, q).value;
      var j :| 0 <= j < |m.text| && m.text[j] != s[q + j];
      assert DigitCommaDigitAt(s, q + j);
    }
  }

  /** Text without a digit-comma-digit sequence has no decimal match. */
  lemma NoDecimalWithoutDigitCommaDigit(rule: Rule, s: string)
    requires rule.ObjectDecimal? || rule.ArrayDecimal?
    requires forall i :: 0 <= i < |s| ==> !DigitCommaDigitAt(s, i)
    ensures NoMatchFrom(rule, s, 0)
  {
    forall q | 0 <= q < |s| ensures Unmatched(rule, s, q) {
      DecimalMatchNeedsDigitCommaDigit(rule, s, q);
    }
  }

  /** A run of white space from `i` up to `j`, and none at `j`, is what
      `\s*` takes. */
  lemma {:induction false} SkipSpacesTo(s: string, i: nat, j: nat)
    requires i <= j <= |s|
    requires forall k :: i <= k < j ==> SpaceAt(s, k)
    requires j == |s| || !IsSpace(s[j])
    ensures SkipSpaces(s, i) == j
    decreases j - i
  {
    if i < j {
      assert SpaceAt(s, i);
      SkipSpacesTo(s, i + 1, j);
    }
  }

  /** A run of digits from `i` up to `j`, and none at `j`, is what `\d+`
      takes. */
  lemma {:induction false} SkipDigitsTo(s: string, i: nat, j: nat)
    requires i <= j <= |s|
    requires forall k :: i <= k < j ==> DigitAt(s, k)
    requires j == |s| || !IsDigit(s[j])
    ensures SkipDigits(s, i) == j
    decreases j - i
  {
    if i < j {
      assert DigitAt(s, i);
      SkipDigitsTo(s, i + 1, j);
    }
  }

  /** The number part `-?(\d+),(\d+)` read from `a`: an optional minus up to
      `b`, integer digits up to the comma at `c`, fraction digits up to `e`.
      The match is the text from `q` to the comma, a dot, and the fraction. */
  lemma NumberPartFound(rule: Rule, s: string, q: nat, a: nat, b: nat, c: nat, e: nat)
    requires rule.ObjectDecimal? || rule.ArrayDecimal?
    requires q < a <= b < c && c + 1 < e <= |s|
    requires NumberStart(rule, s, q) == Some(a)
    requires b == a || (b == a + 1 && s[a] == '-')
    requires forall k :: b <= k < c ==> DigitAt(s, k)
    requires s[c] == ','
    requires forall k :: c + 1 <= k < e ==> DigitAt(s, k)
    requires e == |s| || !IsDigit(s[e])
    requires rule.ArrayDecimal? ==> e < |s| && (s[e] == ',' || s[e] == ']')
    ensures MatchAt(rule, s, q) == Some(Match(e, s[q..c] + "." + s[c + 1..e]))
  {
    if b == a {
      assert DigitAt(s, a);
    }
    SkipDigitsTo(s, b, c);
    SkipDigitsTo(s, c + 1, e);
    DecimalMatchFrom(rule, s, q, a, b, c, e);
  }

  /** `DecimalMatch` once the optional minus and both digit runs are known. */
  lemma DecimalMatchFrom(rule: Rule, s: string, q: nat, a: nat, b: nat, c: nat, e: nat)
    requires rule.ObjectDecimal? || rule.ArrayDecimal?
    requires q < |s| && c + 1 < e <= |s|
    requires NumberStart(rule, s, q) == Some(a)
    requires b == if a < |s| && s[a] == '-' then a + 1 else a
    requires b < c && SkipDigits(s, b) == c && s[c] == ','
    requires SkipDigits(s, c + 1) == e
    requires rule.ArrayDecimal? ==> e < |s| && (s[e] == ',' || s[e] == ']')
    ensures DecimalMatch(rule, s, q) == Some(Match(e, s[q..c] + "." + s[c + 1..e]))
  {
  }

  /** Completeness of `(":\s*-?\d+),(\d+)`: wherever `":` is followed by
      white space, an optional minus, digits, a comma and digits, the pattern
      matches there, takes every fraction digit and turns the comma into a
      dot. `"key": 123,456` becomes `"key": 123.456`. */
  lemma ObjectDecimalFound(s: string, q: nat, a: nat, b: nat, c: nat, e: nat)
    requires q + 2 <= a <= b < c && c + 1 < e <= |s|
    requires s[q] == '"' && s[q + 1] == ':'
    requires forall k :: q + 2 <= k < a ==> SpaceAt(s, k)
    requires b == a || (b == a + 1 && s[a] == '-')
    requires forall k :: b <= k < c ==> DigitAt(s, k)
    requires s[c] == ','
    requires forall k :: c + 1 <= k < e ==> DigitAt(s, k)
    requires e == |s| || !IsDigit(s[e])
    ensures MatchAt(ObjectDecimal, s, q) == Some(Match(e, s[q..c] + "." + s[c + 1..e]))
  {
    if b == a {
      assert DigitAt(s, a);
    }
    SkipSpacesTo(s, q + 2, a);
    NumberPartFound(ObjectDecimal, s, q, a, b, c, e);
  }

  /** Completeness of `(\[|,\s*)(-?\d+),(\d+)(?=[,\]])`: after `[`, or
      after a comma and white space, an optional minus, digits, a comma and
      digits followed by `,` or `]` match there; the comma between the digit
      runs becomes a dot. */
  lemma ArrayDecimalFound(s: string, q: nat, a: nat, b: nat, c: nat, e: nat)
    requires q < a <= b < c && c + 1 < e < |s|
    requires (s[q] == '[' && a == q + 1) || (s[q] == ',' && forall k :: q + 1 <= k < a ==> SpaceAt(s, k))
    requires b == a || (b == a + 1 && s[a] == '-')
    requires forall k :: b <= k < c ==> DigitAt(s, k)
    requires s[c] == ','
    requires forall k :: c + 1 <= k < e ==> DigitAt(s, k)
    requires s[e] == ',' || s[e] == ']'
    ensures MatchAt(ArrayDecimal, s, q) == Some(Match(e, s[q..c] + "." + s[c + 1..e]))
  {
    if b == a {
      assert DigitAt(s, a);
    }
    if s[q] == ',' {
      SkipSpacesTo(s, q + 1, a);
    }
    NumberPartFound(ArrayDecimal, s, q, a, b, c, e);
  }

  /** A whole occurrence of a decimal pattern from `q` to `e`: the
      introducer up to `a`, an optional minus up to `b`, integer digits up to
      the comma at `c`, and fraction digits up to `e`, followed by `,` or `]`
      for the array rule and by no further digit for the object rule. */
  predicate DecimalAt(rule: Rule, s: string, q: nat, a: nat, b: nat, c: nat, e: nat) {
    && q < a <= b < c && c + 1 < e <= |s|
    && Introducer(rule, s, q, a)
    && (b == a || (b == a + 1 && s[a] == '-'))
    && (forall k :: b <= k < c ==> DigitAt(s, k))
    && s[c] == ','
    && (forall k :: c + 1 <= k < e ==> DigitAt(s, k))
    && if rule.ArrayDecimal? then e < |s| && (s[e] == ',' || s[e] == ']')
       else e == |s| || !IsDigit(s[e])
  }

  /** Completeness: every occurrence is a match, with its comma turned into
      a dot. */
  lemma DecimalMatchComplete(rule: Rule, s: string, q: nat, a: nat, b: nat, c: nat, e: nat)
    requires rule.ObjectDecimal? || rule.ArrayDecimal?
    requires DecimalAt(rule, s, q, a, b, c, e)
    ensures MatchAt(rule, s, q) == Some(Match(e, s[q..c] + "." + s[c + 1..e]))
  {
    if rule.ObjectDecimal? {
      ObjectDecimalFound(s, q, a, b, c, e);
    } else {
      ArrayDecimalFound(s, q, a, b, c, e);
    }
  }

  /** Soundness: a decimal match starts only at the pattern's introducer
      and covers a whole occurrence (for the array rule, one followed by `,`
      or `]`); its text is the occurrence with the comma turned into a dot. */
  lemma DecimalMatchSound(rule: Rule, s: string, q: nat)
    requires rule.ObjectDecimal? || rule.ArrayDecimal?
    requires q < |s|
    ensures MatchAt(rule, s, q).Some? ==>
      exists a: nat, b: nat, c: nat :: DecimalAt(rule, s, q, a, b, c, MatchAt(rule, s, q).value.end)
        && MatchAt(rule, s, q).value.text == s[q..c] + "." + s[c + 1..MatchAt(rule, s, q).value.end]
  {
    if MatchAt(rule, s, q).Some? {
      assert MatchAt(rule, s, q) == DecimalMatch(rule, s, q);
      var a, b, c := DecimalMatchParts(rule, s, q);
    }
  }

  /** The introducer end, number start and comma of a decimal match. */
  lemma DecimalMatchParts(rule: Rule, s: string, q: nat) returns (a: nat, b: nat, c: nat)
    requires rule.ObjectDecimal? || rule.ArrayDecimal?
    requires q < |s| && DecimalMatch(rule, s, q).Some?
    ensures DecimalAt(rule, s, q, a, b, c, DecimalMatch(rule, s, q).value.end)
    ensures DecimalMatch(rule, s, q).value.text == s[q..c] + "." + s[c + 1..DecimalMatch(rule, s, q).value.end]
  {
    a := NumberStart(rule, s, q).value;
    b := if a < |s| && s[a] == '-' then a + 1 else a;
    c := SkipDigits(s, b);
    var e := SkipDigits(s, c + 1);
    assert DecimalMatch(rule, s, q) == Some(Match(e, s[q..c] + "." + s[c + 1..e]));
  }

  /** A decimal pattern matches nowhere exactly when the text holds no
      occurrence of it. */
  lemma NoMatchIffNoDecimal(rule: Rule, s: string)
    requires rule.ObjectDecimal? || rule.ArrayDecimal?
    ensures NoMatchFrom(rule, s, 0) <==> forall q, a, b, c, e :: !DecimalAt(rule, s, q, a, b, c, e)
  {
    if NoMatchFrom(rule, s, 0) {
      forall q, a, b, c, e | DecimalAt(rule, s, q, a, b, c, e) ensures false {
        assert Unmatched(rule, s, q);
        DecimalMatchComplete(rule, s, q, a, b, c, e);
      }
    } else {
      var q :| 0 <= q < |s| && !Unmatched(rule, s, q);
      DecimalMatchSound(rule, s, q);
    }
  }

  /** The decimal stages leave the text alone exactly when it holds no
      occurrence of their pattern. */
  lemma DecimalStagesUnchangedIff(s: string)
    ensures FixDecimalObj(s) == s <==> forall q, a, b, c, e :: !DecimalAt(ObjectDecimal, s, q, a, b, c, e)
    ensures FixDecimalArr(s) == s <==> forall q, a, b, c, e :: !DecimalAt(ArrayDecimal, s, q, a, b, c, e)
  {
    NoMatchIffNoDecimal(ObjectDecimal, s);
    NoMatchIffNoDecimal(ArrayDecimal, s);
  }

  /** Integer parts of any length are read: `":12,5` becomes `":12.5`. */
  lemma MultiDigitObjectDecimal()
    ensures FixDecimalObj("\":12,5") == "\":12.5"
  {
    var s := "\":12,5";
    ObjectDecimalFound(s, 0, 2, 2, 4, 6);
    assert s[0..4] + "." + s[5..6] == "\":12.5";
    assert ReplaceAll(ObjectDecimal, s, 6) == [];
  }

  /** The sign is kept and the comma between the two digit runs becomes a
      dot: `":-1,5` becomes `":-1.5`. */
  lemma ObjectDecimalExample()
    ensures FixDecimalObj("\":-1,5") == "\":-1.5"
  {
    var s := "\":-1,5";
    assert SkipSpaces(s, 2) == 2;
    assert SkipDigits(s, 4) == 4;
    assert SkipDigits(s, 3) == 4;
    assert SkipDigits(s, 6) == 6;
    assert SkipDigits(s, 5) == 6;
    assert s[0..4] + "." + s[5..6] == "\":-1.5";
    assert MatchAt(ObjectDecimal, s, 0) == Some(Match(6, "\":-1.5"));
    assert ReplaceAll(ObjectDecimal, s, 6) == [];
  }

  /** The array rule cannot tell a list of integers from a list of
      comma-decimals: `[1,2,3]` becomes `[1.2,3]`, since the first pair
      matches and the scan resumes at the second comma, where `3` is not
      followed by a comma and a digit. */
  lemma IntegerArrayIsReadAsDecimals()
    ensures FixDecimalArr("[1,2,3]") == "[1.2,3]"
  {
    var s := "[1,2,3]";
    assert NumberStart(ArrayDecimal, s, 0) == Some(1);
    assert SkipDigits(s, 2) == 2;
    assert SkipDigits(s, 1) == 2;
    assert SkipDigits(s, 4) == 4;
    assert SkipDigits(s, 3) == 4;
    assert s[0..2] + "." + s[3..4] == "[1.2";
    assert MatchAt(ArrayDecimal, s, 0) == Some(Match(4, "[1.2"));
    assert NumberStart(ArrayDecimal, s, 4) == Some(5);
    assert SkipDigits(s, 6) == 6;
    assert SkipDigits(s, 5) == 6;
    assert MatchAt(ArrayDecimal, s, 4).None?;
    assert MatchAt(ArrayDecimal, s, 5).None?;
    assert MatchAt(ArrayDecimal, s, 6).None?;
    assert ReplaceAll(ArrayDecimal, s, 7) == [];
    assert ReplaceAll(ArrayDecimal, s, 6) == "]";
    assert ReplaceAll(ArrayDecimal, s, 5) == "3]";
    assert ReplaceAll(ArrayDecimal, s, 4) == ",3]";
  }

  // ---------------------------------------------------------------------------
  // Properties of the NaN and infinity stages
  // ---------------------------------------------------------------------------

  predicate IsTokenRule(rule: Rule) {
    rule.NanToken? || rule.InfinityToken?
  }

  /** A character that can neither be part of a token nor start one. */
  predicate IsSeparator(c: char) {
    !IsWordChar(c) && !IsSign(c)
  }

  /** `t` is, as a whole, one token of the rule: an optional sign and the
      keyword in any mix of upper and lower case. */
  predicate IsTokenText(rule: Rule, t: string) {
    var k := if |t| > 0 && IsSign(t[0]) then 1 else 0;
    (rule.NanToken? && |t| == k + 3 && KeywordAt(t, k, "nan"))
    || (rule.InfinityToken?
        && ((|t| == k + 3 && KeywordAt(t, k, "inf")) || (|t| == k + 8 && KeywordAt(t, k, "infinity"))))
  }

  /** `s[q..e]` is a whole token of the rule with no word character right
      before or right after it: exactly what the pattern, with its
      `(?<!\w)` and `(?!\w)` guards, accepts between `q` and `e`. */
  predicate TokenAt(rule: Rule, s: string, q: nat, e: nat) {
    q < e <= |s| && WordStarts(s, q) && IsTokenText(rule, s[q..e]) && WordEnds(s, e)
  }

  /** A keyword inside `s[q..e]` is read the same way in the slice. */
  lemma KeywordInSlice(s: string, q: nat, e: nat, k: nat, kw: string)
    requires q <= k && k + |kw| <= e <= |s|
    ensures KeywordAt(s[q..e], k - q, kw) <==> KeywordAt(s, k, kw)
  {
    var t := s[q..e];
    var d: nat := k - q;
    forall j | 0 <= j < |kw| ensures KeywordCharAt(t, d, kw, j) <==> KeywordCharAt(s, k, kw, j) {
      assert t[d + j] == s[k + j];
    }
    if KeywordAt(s, k, kw) {
      assert forall j :: 0 <= j < |kw| ==> KeywordCharAt(t, d, kw, j);
    }
    if KeywordAt(t, d, kw) {
      assert forall j :: 0 <= j < |kw| ==> KeywordCharAt(s, k, kw, j);
    }
  }

  /** Soundness: every token match covers a whole token with no word
      character on either side. A lone sign is never replaced. */
  lemma TokenMatchSound(rule: Rule, s: string, q: nat)
    requires IsTokenRule(rule) && q < |s|
    ensures MatchAt(rule, s, q).Some? ==> TokenAt(rule, s, q, MatchAt(rule, s, q).value.end)
  {
    if MatchAt(rule, s, q).Some? {
      var e := MatchAt(rule, s, q).value.end;
      var k := if IsSign(s[q]) then q + 1 else q;
      assert s[q..e][0] == s[q];
      KeywordInSlice(s, q, e, k, if e == k + 3 then (if rule.NanToken? then "nan" else "inf") else "infinity");
    }
  }

  /** Completeness: a whole token with no word character on either side is
      one match, replaced by `null`. */
  lemma TokenMatchComplete(rule: Rule, s: string, q: nat, e: nat)
    requires IsTokenRule(rule) && TokenAt(rule, s, q, e)
    ensures MatchAt(rule, s, q) == Some(Match(e, "null"))
  {
    var t := s[q..e];
    assert t[0] == s[q];
    var k := if IsSign(s[q]) then q + 1 else q;
    if e == k + 3 {
      KeywordInSlice(s, q, e, k, if rule.NanToken? then "nan" else "inf");
    } else {
      KeywordInSlice(s, q, e, k, "infinity");
      assert KeywordCharAt(s, k, "infinity", 3);
      assert !WordEnds(s, k + 3);
    }
  }

  /** No match starts anywhere exactly when no token stands clear of word
      characters anywhere. */
  lemma NoMatchIffNoToken(rule: Rule, s: string)
    requires IsTokenRule(rule)
    ensures NoMatchFrom(rule, s, 0) <==> forall q, e :: !TokenAt(rule, s, q, e)
  {
    if NoMatchFrom(rule, s, 0) {
      forall q, e | TokenAt(rule, s, q, e) ensures false {
        assert Unmatched(rule, s, q);
        TokenMatchComplete(rule, s, q, e);
      }
    } else {
      var q :| 0 <= q < |s| && !Unmatched(rule, s, q);
      TokenMatchSound(rule, s, q);
    }
  }

  /** The NaN and infinity stages leave the text alone exactly when it holds
      no token of theirs standing clear of word characters. */
  lemma TokenStagesUnchangedIff(s: string)
    ensures ReplaceNan(s) == s <==> forall q, e :: !TokenAt(NanToken, s, q, e)
    ensures ReplaceInfinity(s) == s <==> forall q, e :: !TokenAt(InfinityToken, s, q, e)
  {
    NoMatchIffNoToken(NanToken, s);
    NoMatchIffNoToken(InfinityToken, s);
  }

  /** `Match` moved `d` characters to the right. */
  function Shift(m: Option<Match>, d: nat): Option<Match> {
    match m
    case None => None
    case Some(Match(e, t)) => Some(Match(e + d, t))
  }

  /** The characters of a keyword occurrence are letters. */
  lemma KeywordLetters(s: string, k: nat, kw: string, i: nat)
    requires forall j :: 0 <= j < |kw| ==> IsAsciiLower(kw[j])
    ensures KeywordAt(s, k, kw) && k <= i < k + |kw| ==> IsAsciiLetter(s[i])
  {
    if KeywordAt(s, k, kw) && k <= i < k + |kw| {
      assert KeywordCharAt(s, k, kw, i - k);
    }
  }

  /** A keyword cannot run across a separator. */
  lemma KeywordBeforeSeparator(x: string, y: string, k: nat, kw: string)
    requires 0 < |x| && IsSeparator(x[|x| - 1]) && k < |x|
    requires forall j :: 0 <= j < |kw| ==> IsAsciiLower(kw[j])
    ensures KeywordAt(x + y, k, kw) <==> KeywordAt(x, k, kw)
    ensures KeywordAt(x, k, kw) ==> k + |kw| < |x|
  {
    assert (x + y)[|x| - 1] == x[|x| - 1];
    KeywordLetters(x + y, k, kw, |x| - 1);
    KeywordLetters(x, k, kw, |x| - 1);
    if k + |kw| < |x| {
      forall i | k <= i < k + |kw| ensures (x + y)[i] == x[i] {
      }
      assert KeywordAt(x + y, k, kw) <==> KeywordAt(x, k, kw) by {
        if KeywordAt(x, k, kw) {
          forall j | 0 <= j < |kw| ensures KeywordCharAt(x + y, k, kw, j) {
            assert (x + y)[k + j] == x[k + j];
            assert KeywordCharAt(x, k, kw, j);
          }
        }
        if KeywordAt(x + y, k, kw) {
          forall j | 0 <= j < |kw| ensures KeywordCharAt(x, k, kw, j) {
            assert (x + y)[k + j] == x[k + j];
            assert KeywordCharAt(x + y, k, kw, j);
          }
        }
      }
    }
  }

  /** Characters after the split point are read the same way in `y`. */
  lemma KeywordAfterSplit(x: string, y: string, k: nat, kw: string)
    ensures KeywordAt(x + y, |x| + k, kw) <==> KeywordAt(y, k, kw)
  {
    var s, at := x + y, |x| + k;
    if KeywordAt(y, k, kw) {
      forall j | 0 <= j < |kw| ensures KeywordCharAt(s, at, kw, j) {
        assert s[at + j] == y[k + j];
        assert KeywordCharAt(y, k, kw, j);
      }
    }
    if KeywordAt(x + y, |x| + k, kw) {
      forall j | 0 <= j < |kw| ensures KeywordCharAt(y, k, kw, j) {
        assert (x + y)[|x| + k + j] == y[k + j];
        assert KeywordCharAt(x + y, |x| + k, kw, j);
      }
    }
  }

  /** A token starting before a separator is found without looking past it,
      and ends before it. */
  lemma TokenMatchBeforeSeparator(rule: Rule, x: string, y: string, q: nat)
    requires IsTokenRule(rule)
    requires 0 < |x| && IsSeparator(x[|x| - 1]) && q < |x|
    ensures MatchAt(rule, x + y, q) == MatchAt(rule, x, q)
    ensures MatchAt(rule, x, q).Some? ==> MatchAt(rule, x, q).value.end < |x|
  {
    TokenBeforeSeparator(rule, x, y, q);
  }

  lemma TokenBeforeSeparator(rule: Rule, x: string, y: string, q: nat)
    requires IsTokenRule(rule)
    requires 0 < |x| && IsSeparator(x[|x| - 1]) && q < |x|
    ensures TokenMatch(rule, x + y, q) == TokenMatch(rule, x, q)
    ensures TokenMatch(rule, x, q).Some? ==> TokenMatch(rule, x, q).value.end < |x|
  {
    var s := x + y;
    assert s[q] == x[q];
    if q > 0 {
      assert s[q - 1] == x[q - 1];
    }
    var k := if IsSign(x[q]) then q + 1 else q;
    if rule.NanToken? {
      KeywordEndsBeforeSeparator(x, y, k, "nan");
    } else {
      KeywordEndsBeforeSeparator(x, y, k, "inf");
      KeywordEndsBeforeSeparator(x, y, k, "infinity");
    }
  }

  /** A keyword followed by a word end is found in `x + y` exactly when it
      is found in `x`, and it then ends before the separator. */
  lemma KeywordEndsBeforeSeparator(x: string, y: string, k: nat, kw: string)
    requires 0 < |x| && IsSeparator(x[|x| - 1]) && k < |x|
    requires forall j :: 0 <= j < |kw| ==> IsAsciiLower(kw[j])
    ensures (KeywordAt(x + y, k, kw) && WordEnds(x + y, k + |kw|))
      <==> (KeywordAt(x, k, kw) && WordEnds(x, k + |kw|))
    ensures KeywordAt(x, k, kw) ==> k + |kw| < |x|
  {
    KeywordBeforeSeparator(x, y, k, kw);
    if k + |kw| < |x| {
      assert (x + y)[k + |kw|] == x[k + |kw|];
    }
  }

  /** A token starting right after a separator is found as if the text
      started there. */
  lemma TokenMatchAfterSeparator(rule: Rule, x: string, y: string, q: nat)
    requires IsTokenRule(rule)
    requires 0 < |x| && IsSeparator(x[|x| - 1]) && q < |y|
    ensures MatchAt(rule, x + y, |x| + q) == Shift(MatchAt(rule, y, q), |x|)
  {
    TokenAfterSeparator(rule, x, y, q);
  }

  lemma TokenAfterSeparator(rule: Rule, x: string, y: string, q: nat)
    requires IsTokenRule(rule)
    requires 0 < |x| && IsSeparator(x[|x| - 1]) && q < |y|
    ensures TokenMatch(rule, x + y, |x| + q) == Shift(TokenMatch(rule, y, q), |x|)
  {
    WordStartsAfterSeparator(x, y, q);
    var k := if IsSign(y[q]) then q + 1 else q;
    if rule.NanToken? {
      KeywordEndsAfterSplit(x, y, k, "nan");
    } else {
      KeywordEndsAfterSplit(x, y, k, "inf");
      KeywordEndsAfterSplit(x, y, k, "infinity");
    }
  }

  /** A word starts at `q` in `y` exactly when it starts there in `x + y`. */
  lemma WordStartsAfterSeparator(x: string, y: string, q: nat)
    requires 0 < |x| && IsSeparator(x[|x| - 1]) && q < |y|
    ensures (x + y)[|x| + q] == y[q]
    ensures WordStarts(x + y, |x| + q) <==> WordStarts(y, q)
  {
    var s := x + y;
    if q > 0 {
      assert s[|x| + q - 1] == y[q - 1];
    } else {
      assert s[|x| - 1] == x[|x| - 1];
    }
  }

  /** A keyword followed by a word end is found at the same place in `y`. */
  lemma KeywordEndsAfterSplit(x: string, y: string, k: nat, kw: string)
    ensures (KeywordAt(x + y, |x| + k, kw) && WordEnds(x + y, |x| + k + |kw|))
      <==> (KeywordAt(y, k, kw) && WordEnds(y, k + |kw|))
  {
    KeywordAfterSplit(x, y, k, kw);
    if k + |kw| < |y| {
      assert (x + y)[|x| + k + |kw|] == y[k + |kw|];
    }
  }

  lemma {:induction false} ReplaceAllBeforeSeparator(rule: Rule, x: string, y: string, p: nat)
    requires IsTokenRule(rule)
    requires 0 < |x| && IsSeparator(x[|x| - 1]) && p <= |x|
    ensures ReplaceAll(rule, x + y, p) == ReplaceAll(rule, x, p) + ReplaceAll(rule, x + y, |x|)
    decreases |x| - p
  {
    if p < |x| {
      ReplaceAllBeforeSeparator(rule, x, y, Resume(rule, x, p));
      BeforeSeparatorStep(rule, x, y, p);
    }
  }

  /** Where the scan goes on after index `p`: past the match starting
      there, or one character on. */
  function Resume(rule: Rule, s: string, p: nat): (r: nat)
    requires p < |s|
    ensures p < r <= |s|
  {
    match MatchAt(rule, s, p)
    case Some(m) => m.end
    case None => p + 1
  }

  /** What the scan writes for index `p`: the replacement of the match
      starting there, or the character itself. */
  function Emitted(rule: Rule, s: string, p: nat): string
    requires p < |s|
  {
    match MatchAt(rule, s, p)
    case Some(m) => m.text
    case None => [s[p]]
  }

  /** One step of the scan. */
  lemma ReplaceAllResumes(rule: Rule, s: string, p: nat)
    requires p < |s|
    ensures ReplaceAll(rule, s, p) == Emitted(rule, s, p) + ReplaceAll(rule, s, Resume(rule, s, p))
  {
  }

  /** The step of `ReplaceAllBeforeSeparator`. */
  lemma BeforeSeparatorStep(rule: Rule, x: string, y: string, p: nat)
    requires IsTokenRule(rule)
    requires 0 < |x| && IsSeparator(x[|x| - 1]) && p < |x|
    requires var r := Resume(rule, x, p);
      ReplaceAll(rule, x + y, r) == ReplaceAll(rule, x, r) + ReplaceAll(rule, x + y, |x|)
    ensures ReplaceAll(rule, x + y, p) == ReplaceAll(rule, x, p) + ReplaceAll(rule, x + y, |x|)
  {
    var r := Resume(rule, x, p);
    UnshiftedStep(rule, x, y, p);
    ReplaceAllResumes(rule, x + y, p);
    ReplaceAllResumes(rule, x, p);
    RegroupAfterHead(ReplaceAll(rule, x + y, p), Emitted(rule, x, p), ReplaceAll(rule, x + y, r),
      ReplaceAll(rule, x, p), ReplaceAll(rule, x, r), ReplaceAll(rule, x + y, |x|));
  }

  /** A step in `x` is the same step in `x + y`. */
  lemma UnshiftedStep(rule: Rule, x: string, y: string, p: nat)
    requires IsTokenRule(rule)
    requires 0 < |x| && IsSeparator(x[|x| - 1]) && p < |x|
    ensures Resume(rule, x + y, p) == Resume(rule, x, p)
    ensures Emitted(rule, x + y, p) == Emitted(rule, x, p)
  {
    TokenMatchBeforeSeparator(rule, x, y, p);
    assert (x + y)[p] == x[p];
  }

  /** `whole` and `part` start with the same `head`, and the tail of
      `whole` is the tail of `part` followed by `rest`. */
  lemma RegroupAfterHead(whole: string, head: string, tail: string, part: string, partTail: string, rest: string)
    requires whole == head + tail && part == head + partTail && tail == partTail + rest
    ensures whole == part + rest
  {
    assert head + (partTail + rest) == (head + partTail) + rest;
  }

  lemma {:induction false} ReplaceAllAfterSeparator(rule: Rule, x: string, y: string, q: nat)
    requires IsTokenRule(rule)
    requires 0 < |x| && IsSeparator(x[|x| - 1]) && q <= |y|
    ensures ReplaceAll(rule, x + y, |x| + q) == ReplaceAll(rule, y, q)
    decreases |y| - q
  {
    if q < |y| {
      ReplaceAllAfterSeparator(rule, x, y, Resume(rule, y, q));
      AfterSeparatorStep(rule, x, y, q);
    } else {
      assert |x| + q == |x + y|;
    }
  }

  /** The step of `ReplaceAllAfterSeparator`. */
  lemma AfterSeparatorStep(rule: Rule, x: string, y: string, q: nat)
    requires IsTokenRule(rule)
    requires 0 < |x| && IsSeparator(x[|x| - 1]) && q < |y|
    requires var r := Resume(rule, y, q);
      ReplaceAll(rule, x + y, |x| + r) == ReplaceAll(rule, y, r)
    ensures ReplaceAll(rule, x + y, |x| + q) == ReplaceAll(rule, y, q)
  {
    ShiftedResumes(rule, x, y, q);
    ReplaceAllResumes(rule, y, q);
  }

  /** One step of the scan of `x + y` at a position in `y`. */
  lemma ShiftedResumes(rule: Rule, x: string, y: string, q: nat)
    requires IsTokenRule(rule)
    requires 0 < |x| && IsSeparator(x[|x| - 1]) && q < |y|
    ensures ReplaceAll(rule, x + y, |x| + q) == Emitted(rule, y, q) + ReplaceAll(rule, x + y, |x| + Resume(rule, y, q))
  {
    ShiftedStep(rule, x, y, q);
    ResumesWith(rule, x + y, |x| + q, Emitted(rule, y, q), |x| + Resume(rule, y, q));
  }

  /** One step of the scan, given what it writes and where it resumes. */
  lemma ResumesWith(rule: Rule, s: string, p: nat, written: string, next: nat)
    requires p < |s| && Emitted(rule, s, p) == written && Resume(rule, s, p) == next
    ensures ReplaceAll(rule, s, p) == written + ReplaceAll(rule, s, next)
  {
    ReplaceAllResumes(rule, s, p);
  }

  /** A step in `y` is the same step in `x + y`, shifted. */
  lemma ShiftedStep(rule: Rule, x: string, y: string, q: nat)
    requires IsTokenRule(rule)
    requires 0 < |x| && IsSeparator(x[|x| - 1]) && q < |y|
    ensures Resume(rule, x + y, |x| + q) == |x| + Resume(rule, y, q)
    ensures Emitted(rule, x + y, |x| + q) == Emitted(rule, y, q)
  {
    TokenMatchAfterSeparator(rule, x, y, q);
    assert (x + y)[|x| + q] == y[q];
  }

  /** The NaN and infinity stages work piecewise: text split after a
      separator is rewritten as its two halves are. */
  lemma TokenStageSplits(rule: Rule, x: string, y: string)
    requires IsTokenRule(rule)
    requires 0 < |x| && IsSeparator(x[|x| - 1])
    ensures ReplaceAll(rule, x + y, 0) == ReplaceAll(rule, x, 0) + ReplaceAll(rule, y, 0)
  {
    ReplaceAllBeforeSeparator(rule, x, y, 0);
    ReplaceAllAfterSeparator(rule, x, y, 0);
  }

  /** A whole token followed by nothing or by a non-word character is one
      match, replaced by `null`. */
  lemma WholeTokenMatches(rule: Rule, t: string, z: string)
    requires IsTokenRule(rule) && IsTokenText(rule, t)
    requires z == [] || !IsWordChar(z[0])
    ensures MatchAt(rule, t + z, 0) == Some(Match(|t|, "null"))
  {
    var s := t + z;
    var k := if IsSign(t[0]) then 1 else 0;
    assert s[0] == t[0];
    KeywordBeforeEnd(t, z, k, "nan");
    KeywordBeforeEnd(t, z, k, "inf");
    KeywordBeforeEnd(t, z, k, "infinity");
    if |z| > 0 {
      assert s[|t|] == z[0];
    }
    if rule.InfinityToken? && |t| == k + 8 {
      assert KeywordCharAt(t, k, "infinity", 3);
      assert s[k + 3] == t[k + 3];
    }
  }

  /** A keyword inside `t` is read the same way in `t + z`. */
  lemma KeywordBeforeEnd(t: string, z: string, k: nat, kw: string)
    ensures k + |kw| <= |t| ==> (KeywordAt(t + z, k, kw) <==> KeywordAt(t, k, kw))
  {
    if k + |kw| <= |t| {
      if KeywordAt(t, k, kw) {
        forall j | 0 <= j < |kw| ensures KeywordCharAt(t + z, k, kw, j) {
          assert (t + z)[k + j] == t[k + j];
          assert KeywordCharAt(t, k, kw, j);
        }
      }
      if KeywordAt(t + z, k, kw) {
        forall j | 0 <= j < |kw| ensures KeywordCharAt(t, k, kw, j) {
          assert (t + z)[k + j] == t[k + j];
          assert KeywordCharAt(t + z, k, kw, j);
        }
      }
    }
  }

  /** No token starts at a separator. */
  lemma NoTokenAtSeparator(rule: Rule, s: string, q: nat)
    requires IsTokenRule(rule)
    requires q < |s| && IsSeparator(s[q])
    ensures MatchAt(rule, s, q).None?
  {
    KeywordLetters(s, q, "nan", q);
    KeywordLetters(s, q, "inf", q);
    KeywordLetters(s, q, "infinity", q);
  }

  /** A whole token ends in a letter. */
  lemma TokenEndsInLetter(rule: Rule, t: string)
    requires IsTokenRule(rule) && IsTokenText(rule, t)
    ensures |t| > 0 && IsAsciiLetter(t[|t| - 1])
  {
    var k := if IsSign(t[0]) then 1 else 0;
    KeywordLetters(t, k, "nan", |t| - 1);
    KeywordLetters(t, k, "inf", |t| - 1);
    KeywordLetters(t, k, "infinity", |t| - 1);
  }

  /** A separator after a letter is kept, and the scan moves on past it. */
  lemma SeparatorAfterLetterIsKept(rule: Rule, s: string, q: nat)
    requires IsTokenRule(rule)
    requires 0 < q < |s| && IsWordChar(s[q - 1])
    ensures ReplaceAll(rule, s, q) == [s[q]] + ReplaceAll(rule, s, q + 1)
  {
  }

  /** After a whole token, the text from a separator on is rewritten as if it
      stood alone. */
  lemma AfterTokenAtSeparator(rule: Rule, t: string, b: string)
    requires IsTokenRule(rule) && IsTokenText(rule, t)
    requires b != [] && IsSeparator(b[0])
    ensures ReplaceAll(rule, t + b, |t|) == ReplaceAll(rule, b, 0)
  {
    SeparatorAfterTokenIsKept(rule, t, b);
    RestAfterTokenSeparator(rule, t, b);
    SeparatorFirstIsKept(rule, b);
  }

  lemma SeparatorAfterTokenIsKept(rule: Rule, t: string, b: string)
    requires IsTokenRule(rule) && IsTokenText(rule, t)
    requires b != [] && IsSeparator(b[0])
    ensures ReplaceAll(rule, t + b, |t|) == [b[0]] + ReplaceAll(rule, t + b, |t| + 1)
  {
    var s := t + b;
    TokenEndsInLetter(rule, t);
    assert s[|t| - 1] == t[|t| - 1];
    assert s[|t|] == b[0];
    SeparatorAfterLetterIsKept(rule, s, |t|);
  }

  lemma RestAfterTokenSeparator(rule: Rule, t: string, b: string)
    requires IsTokenRule(rule)
    requires b != [] && IsSeparator(b[0])
    ensures ReplaceAll(rule, t + b, |t| + 1) == ReplaceAll(rule, b[1..], 0)
  {
    var d, rest := [b[0]], b[1..];
    assert (t + d) + rest == t + b;
    ReplaceAllAfterSeparator(rule, t + d, rest, 0);
  }

  /** A text starting with a separator keeps it and goes on with the rest. */
  lemma SeparatorFirstIsKept(rule: Rule, b: string)
    requires IsTokenRule(rule)
    requires b != [] && IsSeparator(b[0])
    ensures ReplaceAll(rule, b, 0) == [b[0]] + ReplaceAll(rule, b[1..], 0)
  {
    var d, rest := [b[0]], b[1..];
    NoTokenAtSeparator(rule, b, 0);
    ReplaceAllKeptStep(rule, b, 0);
    assert d + rest == b;
    ReplaceAllAfterSeparator(rule, d, rest, 0);
  }

  /** A whole token followed by nothing or by a separator becomes `null`. */
  lemma TokenThenRest(rule: Rule, t: string, b: string)
    requires IsTokenRule(rule) && IsTokenText(rule, t)
    requires b == [] || IsSeparator(b[0])
    ensures ReplaceAll(rule, t + b, 0) == "null" + ReplaceAll(rule, b, 0)
  {
    WholeTokenMatches(rule, t, b);
    if b == [] {
      assert t + b == t;
    } else {
      AfterTokenAtSeparator(rule, t, b);
    }
  }

  /** A whole token standing between separators (or at either end of the
      text) becomes `null`, and the text around it is rewritten on its own. */
  lemma TokenBecomesNull(rule: Rule, a: string, t: string, b: string)
    requires IsTokenRule(rule) && IsTokenText(rule, t)
    requires a == [] || IsSeparator(a[|a| - 1])
    requires b == [] || IsSeparator(b[0])
    ensures ReplaceAll(rule, a + (t + b), 0) == ReplaceAll(rule, a, 0) + "null" + ReplaceAll(rule, b, 0)
  {
    if a == [] {
      TokenAtStart(rule, a, t, b);
    } else {
      TokenAfterText(rule, a, t, b);
    }
  }

  /** A NaN token matches wherever no word character touches it, whatever
      its neighbours are otherwise (`x-nan` becomes `x-null`). */
  lemma NanMatchesBetweenNonWordChars(s: string, q: nat)
    requires q + 3 <= |s| && KeywordAt(s, q, "nan")
    requires WordStarts(s, q) && WordEnds(s, q + 3)
    ensures MatchAt(NanToken, s, q) == Some(Match(q + 3, "null"))
  {
    assert KeywordCharAt(s, q, "nan", 0);
  }

  /** Likewise for a spelled-out infinity: the shorter `inf` alternative is
      refused by the look-ahead and the whole word is replaced. */
  lemma InfinityMatchesBetweenNonWordChars(s: string, q: nat)
    requires q + 8 <= |s| && KeywordAt(s, q, "infinity")
    requires WordStarts(s, q) && WordEnds(s, q + 8)
    ensures MatchAt(InfinityToken, s, q) == Some(Match(q + 8, "null"))
  {
    assert KeywordCharAt(s, q, "infinity", 0);
    assert KeywordCharAt(s, q, "infinity", 3);
    assert forall j :: 0 <= j < 3 ==> KeywordCharAt(s, q, "infinity", j) && "infinity"[j] == "inf"[j];
    assert KeywordAt(s, q, "inf");
  }

  lemma TokenAtStart(rule: Rule, a: string, t: string, b: string)
    requires IsTokenRule(rule) && IsTokenText(rule, t)
    requires a == []
    requires b == [] || IsSeparator(b[0])
    ensures ReplaceAll(rule, a + (t + b), 0) == ReplaceAll(rule, a, 0) + "null" + ReplaceAll(rule, b, 0)
  {
    calc {
      ReplaceAll(rule, a + (t + b), 0);
      { assert a + (t + b) == t + b; }
      ReplaceAll(rule, t + b, 0);
      { TokenThenRest(rule, t, b); }
      "null" + ReplaceAll(rule, b, 0);
      { assert ReplaceAll(rule, a, 0) == []; }
      ReplaceAll(rule, a, 0) + "null" + ReplaceAll(rule, b, 0);
    }
  }

  lemma TokenAfterText(rule: Rule, a: string, t: string, b: string)
    requires IsTokenRule(rule) && IsTokenText(rule, t)
    requires a != [] && IsSeparator(a[|a| - 1])
    requires b == [] || IsSeparator(b[0])
    ensures ReplaceAll(rule, a + (t + b), 0) == ReplaceAll(rule, a, 0) + "null" + ReplaceAll(rule, b, 0)
  {
    TokenThenRest(rule, t, b);
    TokenStageSplits(rule, a, t + b);
  }

  /** A run of word characters that is not itself a token is left alone:
      `banana` keeps its `nan`, `info` its `inf`. */
  lemma WordWithoutTokenIsKept(rule: Rule, s: string)
    requires IsTokenRule(rule)
    requires forall i :: 0 <= i < |s| ==> IsWordChar(s[i])
    requires !IsTokenText(rule, s)
    ensures ReplaceAll(rule, s, 0) == s
  {
    forall q | 0 <= q < |s| ensures Unmatched(rule, s, q) {
      if q == 0 && |s| > 3 {
        assert IsWordChar(s[3]);
      }
      if q == 0 && |s| > 8 {
        assert IsWordChar(s[8]);
      }
    }
    ReplaceAllIdentity(rule, s, 0);
  }

  // ---------------------------------------------------------------------------
  // Properties of `clean`
  // ---------------------------------------------------------------------------

  /** The output of `clean` holds no control character. */
  lemma CleanHasNoControl(s: string)
    ensures NoControl(Clean(s).value)
  {
    var s1 := RemoveControlChars(s);
    ReplaceAllKeepsNoControl(NanToken, s1, 0);
    var s2 := ReplaceNan(s1);
    ReplaceAllKeepsNoControl(InfinityToken, s2, 0);
    var s3 := ReplaceInfinity(s2);
    ReplaceAllKeepsNoControl(ObjectDecimal, s3, 0);
    var s4 := FixDecimalObj(s3);
    ReplaceAllKeepsNoControl(ArrayDecimal, s4, 0);
  }

  /** Text with no control character, no NaN or infinity token standing
      clear of word characters and no digit-comma-digit sequence comes out of
      `clean` unchanged. */
  lemma CleanPassesThrough(s: string)
    requires NoControl(s)
    requires forall q, e :: !TokenAt(NanToken, s, q, e)
    requires forall q, e :: !TokenAt(InfinityToken, s, q, e)
    requires forall i :: 0 <= i < |s| ==> !DigitCommaDigitAt(s, i)
    ensures Clean(s) == Ok(s)
  {
    forall q | 0 <= q < |s| ensures Unmatched(NanToken, s, q) && Unmatched(InfinityToken, s, q) {
      TokenMatchSound(NanToken, s, q);
      TokenMatchSound(InfinityToken, s, q);
    }
    RemoveControlCharsIdentity(s);
    ReplaceAllIdentity(NanToken, s, 0);
    ReplaceAllIdentity(InfinityToken, s, 0);
    NoDecimalWithoutDigitCommaDigit(ObjectDecimal, s);
    ReplaceAllIdentity(ObjectDecimal, s, 0);
    NoDecimalWithoutDigitCommaDigit(ArrayDecimal, s);
    ReplaceAllIdentity(ArrayDecimal, s, 0);
  }

  /** Where no match starts from `p` up to `k`, those characters are copied
      unchanged. */
  lemma {:induction false} KeptBetween(rule: Rule, s: string, p: nat, k: nat)
    requires p <= k <= |s|
    requires forall q :: p <= q < k ==> Unmatched(rule, s, q)
    ensures ReplaceAll(rule, s, p) == s[p..k] + ReplaceAll(rule, s, k)
    decreases k - p
  {
    if p < k {
      KeptBetween(rule, s, p + 1, k);
      KeptStep(rule, s, p, k);
    }
  }

  /** The step of `KeptBetween`. */
  lemma KeptStep(rule: Rule, s: string, p: nat, k: nat)
    requires p < k <= |s| && Unmatched(rule, s, p)
    requires ReplaceAll(rule, s, p + 1) == s[p + 1..k] + ReplaceAll(rule, s, k)
    ensures ReplaceAll(rule, s, p) == s[p..k] + ReplaceAll(rule, s, k)
  {
    ReplaceAllKeptStep(rule, s, p);
    SliceCons(s, p, k);
    ConsAppend(s[p], s[p + 1..k], ReplaceAll(rule, s, p + 1), ReplaceAll(rule, s, k));
  }

  /** A slice is its first character followed by the rest. */
  lemma SliceCons(s: string, p: nat, k: nat)
    requires p < k <= |s|
    ensures s[p..k] == [s[p]] + s[p + 1..k]
  {
  }

  /** Prepending a character commutes with appending. */
  lemma ConsAppend(c: char, t: string, y: string, z: string)
    requires y == t + z
    ensures [c] + y == ([c] + t) + z
  {
  }

  /** No decimal match starts where the pattern's introducer does not. */
  lemma WithoutIntroducerUnmatched(rule: Rule, s: string, q: nat)
    requires rule.ObjectDecimal? || rule.ArrayDecimal?
    requires q < |s|
    requires rule.ObjectDecimal? ==> !(q + 1 < |s| && s[q] == '"' && s[q + 1] == ':')
    requires rule.ArrayDecimal? ==> s[q] != '[' && s[q] != ','
    ensures Unmatched(rule, s, q)
  {
  }

  /** One match at `q`, with no match before it and none after it, is the
      only change. */
  lemma OneMatchAmongKept(rule: Rule, s: string, q: nat, m: Match)
    requires q < |s|
    requires forall k :: 0 <= k < q ==> Unmatched(rule, s, k)
    requires MatchAt(rule, s, q) == Some(m)
    requires ReplaceAll(rule, s, m.end) == s[m.end..]
    ensures ReplaceAll(rule, s, 0) == s[..q] + m.text + s[m.end..]
  {
    KeptBetween(rule, s, 0, q);
  }

  /** The first letter of the rule's keywords. */
  function KeywordInitial(rule: Rule): char {
    if rule.NanToken? then 'n' else 'i'
  }

  /** A token match starts at the keyword's first letter, or at a sign right
      before it. */
  lemma TokenMatchNeedsInitial(rule: Rule, s: string, q: nat)
    requires IsTokenRule(rule) && q < |s|
    requires MatchAt(rule, s, q).Some?
    ensures LowerAscii(s[q]) == KeywordInitial(rule)
      || (q + 1 < |s| && LowerAscii(s[q + 1]) == KeywordInitial(rule))
  {
    var k := if IsSign(s[q]) then q + 1 else q;
    if rule.NanToken? {
      assert KeywordCharAt(s, k, "nan", 0);
    } else if KeywordAt(s, k, "inf") {
      assert KeywordCharAt(s, k, "inf", 0);
    } else {
      assert KeywordCharAt(s, k, "infinity", 0);
    }
  }

  /** Text in which the keyword's first letter occurs in neither case is
      left alone by the token stage. */
  lemma WithoutInitialIsKept(rule: Rule, s: string)
    requires IsTokenRule(rule)
    requires forall i :: 0 <= i < |s| ==> LowerAscii(s[i]) != KeywordInitial(rule)
    ensures ReplaceAll(rule, s, 0) == s
  {
    forall q | 0 <= q < |s| ensures Unmatched(rule, s, q) {
      if !Unmatched(rule, s, q) {
        TokenMatchNeedsInitial(rule, s, q);
      }
    }
    ReplaceAllIdentity(rule, s, 0);
  }

  /** From `p` on, text without a digit-comma-digit sequence is left alone
      by a decimal stage. */
  lemma DecimalFreeFrom(rule: Rule, s: string, p: nat)
    requires rule.ObjectDecimal? || rule.ArrayDecimal?
    requires p <= |s|
    requires forall i :: p <= i < |s| ==> !DigitCommaDigitAt(s, i)
    ensures ReplaceAll(rule, s, p) == s[p..]
  {
    forall q | p <= q < |s| ensures Unmatched(rule, s, q) {
      DecimalMatchNeedsDigitCommaDigit(rule, s, q);
    }
    ReplaceAllIdentity(rule, s, p);
  }

  // The example text of `CleanRepairsExample` at each stage.
  const ExampleInput := "{\"hr\": 75,5, \"temp\": NaN}"
  const ExampleBeforeNan := "{\"hr\": 75,5, \"temp\": "
  const ExampleNoNan := "{\"hr\": 75,5, \"temp\": null}"
  const ExampleFixed := "{\"hr\": 75.5, \"temp\": null}"

  lemma ExampleLetters()
    ensures forall i :: 0 <= i < |ExampleBeforeNan| ==> LowerAscii(ExampleBeforeNan[i]) != KeywordInitial(NanToken)
    ensures forall i :: 0 <= i < |ExampleNoNan| ==> LowerAscii(ExampleNoNan[i]) != KeywordInitial(InfinityToken)
  {
  }

  lemma ExampleCommas()
    ensures forall i :: 11 <= i < |ExampleNoNan| ==> !DigitCommaDigitAt(ExampleNoNan, i)
    ensures forall i :: 0 <= i < |ExampleFixed| ==> !DigitCommaDigitAt(ExampleFixed, i)
  {
  }

  lemma ExampleObjectPrefix()
    ensures forall q :: 0 <= q < 4 ==> Unmatched(ObjectDecimal, ExampleNoNan, q)
  {
    forall q | 0 <= q < 4 ensures Unmatched(ObjectDecimal, ExampleNoNan, q) {
      WithoutIntroducerUnmatched(ObjectDecimal, ExampleNoNan, q);
    }
  }

  /** A token between text the stage keeps becomes `null` and the rest is
      kept. */
  lemma TokenBetweenKeptText(rule: Rule, a: string, t: string, b: string)
    requires IsTokenRule(rule) && IsTokenText(rule, t)
    requires a != [] && IsSeparator(a[|a| - 1])
    requires b == [] || IsSeparator(b[0])
    requires ReplaceAll(rule, a, 0) == a && ReplaceAll(rule, b, 0) == b
    ensures ReplaceAll(rule, a + (t + b), 0) == a + "null" + b
  {
    TokenAfterText(rule, a, t, b);
  }

  /** The NaN stage of `CleanRepairsExample`. */
  lemma NanStageExample()
    ensures ReplaceAll(NanToken, ExampleInput, 0) == ExampleNoNan
  {
    ExampleNanParts();
    ExampleNanSplit();
    TokenBetweenKeptText(NanToken, ExampleBeforeNan, "NaN", "}");
  }

  lemma ExampleNanParts()
    ensures ReplaceAll(NanToken, ExampleBeforeNan, 0) == ExampleBeforeNan
    ensures ReplaceAll(NanToken, "}", 0) == "}"
    ensures IsTokenText(NanToken, "NaN")
  {
    ExampleLetters();
    WithoutInitialIsKept(NanToken, ExampleBeforeNan);
    ExampleNanToken();
  }

  lemma ExampleNanToken()
    ensures ReplaceAll(NanToken, "}", 0) == "}"
    ensures IsTokenText(NanToken, "NaN")
  {
    assert KeywordCharAt("NaN", 0, "nan", 0);
    assert Unmatched(NanToken, "}", 0);
  }

  lemma ExampleNanSplit()
    ensures ExampleInput == ExampleBeforeNan + ("NaN" + "}")
    ensures ExampleBeforeNan + "null" + "}" == ExampleNoNan
    ensures ExampleBeforeNan != [] && IsSeparator(ExampleBeforeNan[|ExampleBeforeNan| - 1])
    ensures IsSeparator("}"[0])
  {
  }

  /** The object-decimal stage of `CleanRepairsExample`. */
  lemma ObjectStageExample()
    ensures ReplaceAll(ObjectDecimal, ExampleNoNan, 0) == ExampleFixed
  {
    ExampleObjectPrefix();
    ExampleObjectMatch();
    ExampleObjectRest();
    OneMatchAmongKept(ObjectDecimal, ExampleNoNan, 4, Match(11, "\": 75.5"));
    ExampleObjectSplit();
  }

  lemma ExampleObjectMatch()
    ensures MatchAt(ObjectDecimal, ExampleNoNan, 4) == Some(Match(11, "\": 75.5"))
  {
    ExampleObjectShape();
    ObjectDecimalFound(ExampleNoNan, 4, 7, 7, 9, 11);
  }

  lemma ExampleObjectShape()
    ensures ExampleNoNan[4] == '"' && ExampleNoNan[5] == ':'
    ensures forall k :: 6 <= k < 7 ==> SpaceAt(ExampleNoNan, k)
    ensures forall k :: 7 <= k < 9 ==> DigitAt(ExampleNoNan, k)
    ensures ExampleNoNan[9] == ','
    ensures forall k :: 10 <= k < 11 ==> DigitAt(ExampleNoNan, k)
    ensures !IsDigit(ExampleNoNan[11])
    ensures ExampleNoNan[4..9] + "." + ExampleNoNan[10..11] == "\": 75.5"
  {
    var text := "\": 75.5";
    forall j | 0 <= j < 7 ensures (ExampleNoNan[4..9] + "." + ExampleNoNan[10..11])[j] == text[j] {
      if j < 5 {
        assert (ExampleNoNan[4..9] + "." + ExampleNoNan[10..11])[j] == ExampleNoNan[4 + j];
      }
    }
  }

  lemma ExampleObjectRest()
    ensures ReplaceAll(ObjectDecimal, ExampleNoNan, 11) == ExampleNoNan[11..]
  {
    ExampleCommas();
    DecimalFreeFrom(ObjectDecimal, ExampleNoNan, 11);
  }

  lemma ExampleObjectSplit()
    ensures ExampleNoNan[..4] + "\": 75.5" + ExampleNoNan[11..] == ExampleFixed
  {
  }

  /** `clean` repairs a comma decimal and a NaN in one pass:
      `{"hr": 75,5, "temp": NaN}` becomes `{"hr": 75.5, "temp": null}`. */
  lemma CleanRepairsExample()
    ensures Clean("{\"hr\": 75,5, \"temp\": NaN}") == Ok("{\"hr\": 75.5, \"temp\": null}")
  {
    ExampleControlStage();
    NanStageExample();
    ExampleInfinityStage();
    ObjectStageExample();
    ExampleArrayStage();
    CleanThroughStages(ExampleInput, ExampleInput, ExampleNoNan, ExampleNoNan, ExampleFixed, ExampleFixed);
  }

  /** `clean` given the output of each of its stages. */
  lemma CleanThroughStages(s: string, s1: string, s2: string, s3: string, s4: string, s5: string)
    requires RemoveControlChars(s) == s1
    requires ReplaceAll(NanToken, s1, 0) == s2
    requires ReplaceAll(InfinityToken, s2, 0) == s3
    requires ReplaceAll(ObjectDecimal, s3, 0) == s4
    requires ReplaceAll(ArrayDecimal, s4, 0) == s5
    ensures Clean(s) == Ok(s5)
  {
  }

  lemma ExampleControlStage()
    ensures RemoveControlChars(ExampleInput) == ExampleInput
  {
    assert NoControl(ExampleInput);
    RemoveControlCharsIdentity(ExampleInput);
  }

  lemma ExampleInfinityStage()
    ensures ReplaceAll(InfinityToken, ExampleNoNan, 0) == ExampleNoNan
  {
    ExampleLetters();
    WithoutInitialIsKept(InfinityToken, ExampleNoNan);
  }

  lemma ExampleArrayStage()
    ensures ReplaceAll(ArrayDecimal, ExampleFixed, 0) == ExampleFixed
  {
    ExampleCommas();
    DecimalFreeFrom(ArrayDecimal, ExampleFixed, 0);
  }

  /** The empty text is cleaned to the empty text. */
  lemma CleanEmpty()
    ensures Clean("") == Ok("")
  {
  }
}
