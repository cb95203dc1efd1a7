/**
 * The string built-ins the blocks rely on: `trim`, `toLowerCase`, the
 * header slug (`trim().toLowerCase().replace(/\s+/g, '-').replace(/[^\w-]/g, '')`),
 * `startsWith`, `includes`, `<` on strings, `parseInt(_, 10)` and `split`.
 */
module JsString {
  import opened Common

  // ---------------------------------------------------------------------------
  // Character classes
  // ---------------------------------------------------------------------------

  /** The characters matched by `\s` and removed by `trim`. */
  predicate IsSpace(c: char) {
    || ('\t' <= c <= '\r')
    || c == ' '
    || c == '\U{00A0}'
    || c == '\U{1680}'
    || ('\U{2000}' <= c <= '\U{200A}')
    || c == '\U{2028}'
    || c == '\U{2029}'
    || c == '\U{202F}'
    || c == '\U{205F}'
    || c == '\U{3000}'
    || c == '\U{FEFF}'
  }

  predicate IsUpper(c: char) { 'A' <= c <= 'Z' }

  /** The characters matched by `\w` (no `u` flag). */
  predicate IsWordChar(c: char) {
    ('a' <= c <= 'z') || IsUpper(c) || ('0' <= c <= '9') || c == '_'
  }

  predicate IsDigit(c: char) { '0' <= c <= '9' }

  /** The characters a slug can contain. */
  predicate IsSlugChar(c: char) {
    ('a' <= c <= 'z') || ('0' <= c <= '9') || c == '_' || c == '-'
  }

  predicate IsSlug(s: string) {
    forall i :: 0 <= i < |s| ==> IsSlugChar(s[i])
  }

  // ---------------------------------------------------------------------------
  // trim
  // ---------------------------------------------------------------------------

  /** `trimStart`: drops the leading white space. */
  function TrimStart(s: string): (r: string)
    ensures |r| <= |s|
  {
    if s != [] && IsSpace(s[0]) then TrimStart(s[1..]) else s
  }

  /** `trimEnd`: drops the trailing white space. */
  function TrimEnd(s: string): (r: string)
    ensures |r| <= |s|
  {
    if s != [] && IsSpace(s[|s| - 1]) then TrimEnd(s[..|s| - 1]) else s
  }

  /** `trimStart` keeps a suffix that starts with a non-space, and removes only white space. */
  lemma {:induction false} TrimStartSpec(s: string)
    ensures TrimStart(s) == s[|s| - |TrimStart(s)|..]
    ensures TrimStart(s) == [] || !IsSpace(TrimStart(s)[0])
    ensures forall i :: 0 <= i < |s| - |TrimStart(s)| ==> IsSpace(s[i])
  {
    if s != [] && IsSpace(s[0]) {
      TrimStartSpec(s[1..]);
    }
  }

  /** `trimEnd` keeps a prefix that ends with a non-space, and removes only white space. */
  lemma {:induction false} TrimEndSpec(s: string)
    ensures TrimEnd(s) == s[..|TrimEnd(s)|]
    ensures TrimEnd(s) == [] || !IsSpace(TrimEnd(s)[|TrimEnd(s)| - 1])
    ensures forall i :: |TrimEnd(s)| <= i < |s| ==> IsSpace(s[i])
  {
    if s != [] && IsSpace(s[|s| - 1]) {
      TrimEndSpec(s[..|s| - 1]);
    }
  }

  /** `String.prototype.trim`. */
  function Trim(s: string): string {
    TrimEnd(TrimStart(s))
  }

  predicate IsTrimmed(s: string) {
    s == [] || (!IsSpace(s[0]) && !IsSpace(s[|s| - 1]))
  }

  /** `trim` leaves no white space at either end, and removes only white space. */
  lemma TrimIsTrimmed(s: string)
    ensures IsTrimmed(Trim(s))
    ensures Trim(s) == [] <==> forall i :: 0 <= i < |s| ==> IsSpace(s[i])
  {
    var a := TrimStart(s);
    var b := TrimEnd(a);
    TrimStartSpec(s);
    TrimEndSpec(a);
    if b != [] {
      assert b[0] == a[0];
    }
    if b == [] {
      forall i | 0 <= i < |s| ensures IsSpace(s[i]) {
        if i >= |s| - |a| {
          assert s[i] == a[i - (|s| - |a|)];
        }
      }
    }
  }

  lemma TrimStartOfNonSpace(s: string)
    requires s == [] || !IsSpace(s[0])
    ensures TrimStart(s) == s
  {
  }

  lemma TrimEndOfNonSpace(s: string)
    requires s == [] || !IsSpace(s[|s| - 1])
    ensures TrimEnd(s) == s
  {
  }

  /** Trimming an already trimmed string changes nothing. */
  lemma TrimOfTrimmed(s: string)
    requires IsTrimmed(s)
    ensures Trim(s) == s
  {
    TrimStartOfNonSpace(s);
    TrimEndOfNonSpace(s);
  }

  lemma TrimIdempotent(s: string)
    ensures Trim(Trim(s)) == Trim(s)
  {
    TrimIsTrimmed(s);
    TrimOfTrimmed(Trim(s));
  }

  // ---------------------------------------------------------------------------
  // toLowerCase (ASCII letters)
  // ---------------------------------------------------------------------------

  function LowerChar(c: char): (r: char)
    ensures !IsUpper(r)
    ensures IsSpace(r) <==> IsSpace(c)
    ensures !IsUpper(c) ==> r == c
  {
    if IsUpper(c) then (c as int + 32) as char else c
  }

  /** `String.prototype.toLowerCase`, for ASCII letters. */
  function Lower(s: string): (r: string)
    ensures |r| == |s|
  {
    if s == [] then [] else [LowerChar(s[0])] + Lower(s[1..])
  }

  /** `toLowerCase` works character by character. */
  lemma {:induction false} LowerSpec(s: string)
    ensures forall i :: 0 <= i < |s| ==> Lower(s)[i] == LowerChar(s[i])
  {
    if s != [] {
      LowerSpec(s[1..]);
    }
  }

  lemma LowerOfLower(s: string)
    requires forall i :: 0 <= i < |s| ==> !IsUpper(s[i])
    ensures Lower(s) == s
  {
    LowerSpec(s);
  }

  lemma LowerIdempotent(s: string)
    ensures Lower(Lower(s)) == Lower(s)
  {
    LowerSpec(s);
    LowerOfLower(Lower(s));
  }

  // ---------------------------------------------------------------------------
  // The header slug
  // ---------------------------------------------------------------------------

  /** `replace(/\s+/g, '-')`: every maximal run of white space becomes one `-`. */
  function CollapseSpaces(s: string): string
    decreases |s|
  {
    if s == [] then []
    else if IsSpace(s[0]) then ['-'] + CollapseSpaces(TrimStart(s[1..]))
    else [s[0]] + CollapseSpaces(s[1..])
  }

  /** No white space is left after collapsing. */
  lemma {:induction false} CollapseSpacesNoSpace(s: string)
    ensures forall i :: 0 <= i < |CollapseSpaces(s)| ==> !IsSpace(CollapseSpaces(s)[i])
    decreases |s|
  {
    if s != [] {
      if IsSpace(s[0]) {
        CollapseSpacesNoSpace(TrimStart(s[1..]));
      } else {
        CollapseSpacesNoSpace(s[1..]);
      }
    }
  }

  /** Collapsing white space introduces no upper-case letter. */
  lemma {:induction false} CollapseSpacesNoUpper(s: string)
    requires forall i :: 0 <= i < |s| ==> !IsUpper(s[i])
    ensures forall i :: 0 <= i < |CollapseSpaces(s)| ==> !IsUpper(CollapseSpaces(s)[i])
  {
    if s != [] {
      if IsSpace(s[0]) {
        var t := TrimStart(s[1..]);
        TrimStartSpec(s[1..]);
        assert forall i :: 0 <= i < |t| ==> t[i] == s[1 + |s[1..]| - |t| + i];
        CollapseSpacesNoUpper(t);
      } else {
        CollapseSpacesNoUpper(s[1..]);
      }
    }
  }

  /** Text without white space is left as it is. */
  lemma {:induction false} CollapseSpacesOfSpaceFree(s: string)
    requires forall i :: 0 <= i < |s| ==> !IsSpace(s[i])
    ensures CollapseSpaces(s) == s
  {
    if s != [] {
      CollapseSpacesOfSpaceFree(s[1..]);
    }
  }

  /** `replace(/[^\w-]/g, '')`: keep word characters and `-`. */
  function KeepWordChars(s: string): (r: string)
    ensures |r| <= |s|
  {
    if s == [] then []
    else if IsWordChar(s[0]) || s[0] == '-' then [s[0]] + KeepWordChars(s[1..])
    else KeepWordChars(s[1..])
  }

  /** Only word characters and `-` are kept. */
  lemma {:induction false} KeepWordCharsSpec(s: string)
    ensures forall i :: 0 <= i < |KeepWordChars(s)| ==> IsWordChar(KeepWordChars(s)[i]) || KeepWordChars(s)[i] == '-'
  {
    if s != [] {
      KeepWordCharsSpec(s[1..]);
    }
  }

  /** Dropping characters introduces no upper-case letter. */
  lemma {:induction false} KeepWordCharsNoUpper(s: string)
    requires forall i :: 0 <= i < |s| ==> !IsUpper(s[i])
    ensures forall i :: 0 <= i < |KeepWordChars(s)| ==> !IsUpper(KeepWordChars(s)[i])
  {
    if s != [] {
      KeepWordCharsNoUpper(s[1..]);
    }
  }

  /** Text made only of word characters and `-` is left as it is. */
  lemma {:induction false} KeepWordCharsOfWordChars(s: string)
    requires forall i :: 0 <= i < |s| ==> IsWordChar(s[i]) || s[i] == '-'
    ensures KeepWordChars(s) == s
  {
    if s != [] {
      KeepWordCharsOfWordChars(s[1..]);
    }
  }

  /** The header slug shared by content-listing, card-grid and sidebar-list. */
  function Slug(s: string): string {
    KeepWordChars(CollapseSpaces(Lower(Trim(s))))
  }

  /** A slug holds only lower-case letters, digits, `_` and `-`: no white space. */
  lemma SlugIsSlug(s: string)
    ensures IsSlug(Slug(s))
  {
    var l := Lower(Trim(s));
    LowerSpec(Trim(s));
    CollapseSpacesNoUpper(l);
    KeepWordCharsNoUpper(CollapseSpaces(l));
    KeepWordCharsSpec(CollapseSpaces(l));
  }

  lemma SlugCharFacts(c: char)
    requires IsSlugChar(c)
    ensures !IsSpace(c) && !IsUpper(c) && (IsWordChar(c) || c == '-')
  {
  }

  /** Slugging a slug leaves it unchanged. */
  lemma SlugOfSlug(s: string)
    requires IsSlug(s)
    ensures Slug(s) == s
  {
    forall i | 0 <= i < |s| ensures !IsSpace(s[i]) && !IsUpper(s[i]) && (IsWordChar(s[i]) || s[i] == '-') {
      SlugCharFacts(s[i]);
    }
    TrimOfSpaceFree(s);
    LowerOfLower(s);
    CollapseThenKeep(s);
  }

  lemma TrimOfSpaceFree(s: string)
    requires forall i :: 0 <= i < |s| ==> !IsSpace(s[i])
    ensures Trim(s) == s
  {
    assert IsTrimmed(s);
    TrimOfTrimmed(s);
  }

  lemma CollapseThenKeep(s: string)
    requires forall i :: 0 <= i < |s| ==> !IsSpace(s[i]) && (IsWordChar(s[i]) || s[i] == '-')
    ensures KeepWordChars(CollapseSpaces(s)) == s
  {
    CollapseSpacesOfSpaceFree(s);
    KeepWordCharsOfWordChars(s);
  }

  /** Slug idempotence: `slug(slug(s)) == slug(s)`. */
  lemma SlugIdempotent(s: string)
    ensures Slug(Slug(s)) == Slug(s)
  {
    SlugIsSlug(s);
    SlugOfSlug(Slug(s));
  }

  // ---------------------------------------------------------------------------
  // startsWith, endsWith, includes, join
  // ---------------------------------------------------------------------------

  predicate StartsWith(s: string, prefix: string) {
    prefix <= s
  }

  predicate EndsWith(s: string, c: char) {
    s != [] && s[|s| - 1] == c
  }

  /** `String.prototype.includes`. */
  predicate Contains(s: string, part: string) {
    part <= s || (s != [] && Contains(s[1..], part))
  }

  /** `Array.prototype.join(sep)` on strings. */
  function Join(xs: seq<string>, sep: string): string {
    if xs == [] then "" else if |xs| == 1 then xs[0] else xs[0] + sep + Join(xs[1..], sep)
  }

  // ---------------------------------------------------------------------------
  // String order
  // ---------------------------------------------------------------------------

  /** `a < b` on strings: the first differing character decides; a proper prefix is smaller. */
  predicate LexLess(a: string, b: string) {
    if a == [] then b != []
    else if b == [] then false
    else if a[0] != b[0] then a[0] < b[0]
    else LexLess(a[1..], b[1..])
  }

  lemma {:induction false} LexLessIrreflexive(a: string)
    ensures !LexLess(a, a)
  {
    if a != [] {
      LexLessIrreflexive(a[1..]);
    }
  }

  lemma {:induction false} LexLessTransitive(a: string, b: string, c: string)
    requires LexLess(a, b) && LexLess(b, c)
    ensures LexLess(a, c)
  {
    if a != [] && b != [] && c != [] && a[0] == b[0] && b[0] == c[0] {
      LexLessTransitive(a[1..], b[1..], c[1..]);
    }
  }

  lemma {:induction false} LexLessTotal(a: string, b: string)
    ensures a == b || LexLess(a, b) || LexLess(b, a)
  {
    if a != [] && b != [] && a[0] == b[0] {
      LexLessTotal(a[1..], b[1..]);
      if a[1..] == b[1..] {
        assert a == [a[0]] + a[1..] && b == [b[0]] + b[1..];
      }
    }
  }

  lemma {:induction false} LexLessAsymmetric(a: string, b: string)
    requires LexLess(a, b)
    ensures !LexLess(b, a)
  {
    if a != [] && b != [] && a[0] == b[0] {
      LexLessAsymmetric(a[1..], b[1..]);
    }
  }

  /** The non-strict order `!(b < a)` is transitive. */
  lemma NotLessTransitive(a: string, b: string, c: string)
    requires !LexLess(b, a) && !LexLess(c, b)
    ensures !LexLess(c, a)
  {
    LexLessTotal(a, b);
    LexLessTotal(b, c);
    if a != b && b != c {
      LexLessTransitive(a, b, c);
      LexLessAsymmetric(a, c);
    }
  }

  // ---------------------------------------------------------------------------
  // parseInt(s, 10)
  // ---------------------------------------------------------------------------

  function LeadingDigits(s: string): (r: string)
    ensures r <= s
    ensures forall i :: 0 <= i < |r| ==> IsDigit(r[i])
    ensures |r| == |s| || !IsDigit(s[|r|])
  {
    if s != [] && IsDigit(s[0]) then [s[0]] + LeadingDigits(s[1..]) else []
  }

  function DigitsValue(d: string): (n: nat)
    requires forall i :: 0 <= i < |d| ==> IsDigit(d[i])
  {
    if d == [] then 0 else DigitsValue(d[..|d| - 1]) * 10 + DigitValue(d[|d| - 1])
  }

  function DigitValue(c: char): (n: nat)
    requires IsDigit(c)
  {
    c as int - '0' as int
  }

  /**
   * `parseInt(s, 10)`: leading white space, an optional sign, then the
   * longest run of decimal digits; `None` (NaN) when there is no digit.
   */
  function ParseInt(s: string): (r: Option<int>)
    ensures r.Some? ==> exists k :: 0 <= k < |s| && IsDigit(s[k])
  {
    var t := TrimStart(s);
    var signed := t != [] && (t[0] == '-' || t[0] == '+');
    var rest := if signed then t[1..] else t;
    var d := LeadingDigits(rest);
    if d == [] then None
    else
      TrimStartSpec(s);
      assert IsDigit(s[|s| - |rest|]);
      var magnitude: int := DigitsValue(d);
      if signed && t[0] == '-' then Some(-magnitude) else Some(magnitude)
  }

  /** The decimal spelling of a natural number. */
  function Decimal(n: nat): (r: string)
    ensures r != [] && forall i :: 0 <= i < |r| ==> IsDigit(r[i])
  {
    if n < 10 then [('0' as int + n) as char] else Decimal(n / 10) + [('0' as int + n % 10) as char]
  }

  lemma {:induction false} DecimalValue(n: nat)
    ensures DigitsValue(Decimal(n)) == n
  {
    if n >= 10 {
      DecimalValue(n / 10);
      var d := Decimal(n);
      assert d[..|d| - 1] == Decimal(n / 10);
    }
  }

  /** `parseInt` reads back the decimal spelling of any natural number. */
  lemma ParseIntDecimal(n: nat)
    ensures ParseInt(Decimal(n)) == Some(n)
  {
    var d := Decimal(n);
    TrimStartOfNonSpace(d);
    assert LeadingDigits(d) == d by {
      LeadingDigitsOfDigits(d);
    }
    DecimalValue(n);
  }

  lemma {:induction false} LeadingDigitsOfDigits(d: string)
    requires forall i :: 0 <= i < |d| ==> IsDigit(d[i])
    ensures LeadingDigits(d) == d
  {
    if d != [] {
      LeadingDigitsOfDigits(d[1..]);
    }
  }

  // ---------------------------------------------------------------------------
  // split(/[\s,|]+/)
  // ---------------------------------------------------------------------------

  predicate IsTokenSeparator(c: char) {
    IsSpace(c) || c == ',' || c == '|'
  }

  /**
   * The non-empty pieces of `s.split(/[\s,|]+/)`, in order. The empty pieces
   * that `split` yields at a leading or trailing separator are left out: no
   * caller does anything with an empty piece.
   */
  function Tokens(s: string): (r: seq<string>)
    ensures s == [] ==> r == []
    decreases |s|
  {
    var rest := DropSeparators(s);
    if rest == [] then []
    else
      var w := Word(rest);
      [w] + Tokens(rest[|w|..])
  }

  /** A piece of `split`: non-empty and free of separators. */
  predicate IsToken(w: string) {
    w != [] && forall j :: 0 <= j < |w| ==> !IsTokenSeparator(w[j])
  }

  /** Every piece `Tokens` yields is a token. */
  lemma {:induction false} TokensSpec(s: string)
    ensures forall i :: 0 <= i < |Tokens(s)| ==> IsToken(Tokens(s)[i])
    decreases |s|
  {
    var rest := DropSeparators(s);
    if rest != [] {
      var w := Word(rest);
      var more := Tokens(rest[|w|..]);
      TokensSpec(rest[|w|..]);
      assert Tokens(s) == [w] + more;
      forall i | 0 <= i < |Tokens(s)|
        ensures IsToken(Tokens(s)[i])
      {
        if i > 0 {
          assert Tokens(s)[i] == more[i - 1];
        }
      }
    }
  }

  /** A run of separators, possibly empty. */
  predicate Separators(g: string) {
    forall j :: 0 <= j < |g| ==> IsTokenSeparator(g[j])
  }

  /** `gaps[0] + toks[0] + gaps[1] + ... + toks[n - 1] + gaps[n]`. */
  function Weave(gaps: seq<string>, toks: seq<string>): string
    requires |gaps| == |toks| + 1
    decreases |toks|
  {
    if toks == [] then gaps[0] else gaps[0] + toks[0] + Weave(gaps[1..], toks[1..])
  }

  /**
   * The text is its pieces interleaved with runs of separators: a run,
   * possibly empty, before the first piece and after the last, and a
   * non-empty run between any two. With every piece a token, the pieces
   * are exactly the text's maximal runs of non-separators, in order.
   */
  lemma {:induction false} TokensSplit(s: string) returns (gaps: seq<string>)
    ensures |gaps| == |Tokens(s)| + 1
    ensures s == Weave(gaps, Tokens(s))
    ensures forall k :: 0 <= k < |gaps| ==> Separators(gaps[k])
    ensures forall k :: 0 < k < |gaps| - 1 ==> gaps[k] != []
    ensures s != [] && IsTokenSeparator(s[0]) ==> gaps[0] != []
    decreases |s|, 1
  {
    if DropSeparators(s) == [] {
      BlankTokens(s);
      gaps := [s];
    } else {
      gaps := TokensSplitCons(s);
    }
  }

  /** `TokensSplit` for a text with at least one piece. */
  lemma {:induction false} TokensSplitCons(s: string) returns (gaps: seq<string>)
    requires DropSeparators(s) != []
    ensures |gaps| == |Tokens(s)| + 1
    ensures s == Weave(gaps, Tokens(s))
    ensures forall k :: 0 <= k < |gaps| ==> Separators(gaps[k])
    ensures forall k :: 0 < k < |gaps| - 1 ==> gaps[k] != []
    ensures s != [] && IsTokenSeparator(s[0]) ==> gaps[0] != []
    decreases |s|, 0
  {
    var lead, w, tail := Decompose(s);
    var more := TokensSplit(tail);
    TokensOfEmpty(tail);
    gaps := [lead] + more;
    Compose(s, lead, w, tail, more, Tokens(tail), gaps, Tokens(s));
  }

  /** A text without a non-separator has no pieces and is one run of separators. */
  lemma BlankTokens(s: string)
    requires DropSeparators(s) == []
    ensures Tokens(s) == [] && Separators(s)
  {
    assert s[..|s| - 0] == s;
  }

  lemma TokensOfEmpty(s: string)
    ensures Tokens(s) != [] ==> s != []
  {
  }

  /** A text with a piece: a separator run, the first piece, then the rest of the text. */
  lemma Decompose(s: string) returns (lead: string, w: string, tail: string)
    requires DropSeparators(s) != []
    ensures s == lead + w + tail && w != [] && |tail| < |s|
    ensures Tokens(s) == [w] + Tokens(tail)
    ensures Separators(lead)
    ensures tail != [] ==> IsTokenSeparator(tail[0])
    ensures IsTokenSeparator(s[0]) ==> lead != []
  {
    var rest := DropSeparators(s);
    lead := s[..|s| - |rest|];
    w := Word(rest);
    tail := rest[|w|..];
    TokensUnfold(s, rest, w, tail);
    LeadRest(s, rest, lead);
    WordTail(rest, w, tail);
    Concat3(s, lead, rest, w, tail);
  }

  lemma TokensUnfold(s: string, rest: string, w: string, tail: string)
    requires rest == DropSeparators(s) && rest != [] && w == Word(rest) && tail == rest[|w|..]
    ensures Tokens(s) == [w] + Tokens(tail)
  {
  }

  lemma Concat3(s: string, lead: string, rest: string, w: string, tail: string)
    requires s == lead + rest && rest == w + tail
    ensures s == lead + w + tail
  {
    assert lead + w + tail == lead + (w + tail);
  }

  lemma LeadRest(s: string, rest: string, lead: string)
    requires rest == DropSeparators(s) && rest != [] && lead == s[..|s| - |rest|]
    ensures s == lead + rest && |rest| <= |s|
    ensures Separators(lead)
    ensures IsTokenSeparator(s[0]) ==> lead != []
  {
    var k := |s| - |rest|;
    assert s == s[..k] + s[k..];
    if k == 0 {
      assert rest == s;
    }
  }

  lemma WordTail(rest: string, w: string, tail: string)
    requires rest != [] && !IsTokenSeparator(rest[0]) && w == Word(rest) && tail == rest[|w|..]
    ensures rest == w + tail && w != [] && |tail| < |rest|
    ensures tail != [] ==> IsTokenSeparator(tail[0])
  {
  }

  /** A separator run, a piece and a woven tail weave into the whole text. */
  lemma Compose(s: string, lead: string, w: string, tail: string, more: seq<string>, toks: seq<string>,
                gaps: seq<string>, all: seq<string>)
    requires s == lead + w + tail && w != []
    requires Separators(lead)
    requires |more| == |toks| + 1 && tail == Weave(more, toks)
    requires forall k :: 0 <= k < |more| ==> Separators(more[k])
    requires forall k :: 0 < k < |more| - 1 ==> more[k] != []
    requires tail != [] && IsTokenSeparator(tail[0]) ==> more[0] != []
    requires tail != [] ==> IsTokenSeparator(tail[0])
    requires toks != [] ==> tail != []
    requires IsTokenSeparator(s[0]) ==> lead != []
    requires gaps == [lead] + more && all == [w] + toks
    ensures |gaps| == |all| + 1
    ensures s == Weave(gaps, all)
    ensures forall k :: 0 <= k < |gaps| ==> Separators(gaps[k])
    ensures forall k :: 0 < k < |gaps| - 1 ==> gaps[k] != []
    ensures s != [] && IsTokenSeparator(s[0]) ==> gaps[0] != []
  {
    assert gaps[1..] == more && all[1..] == toks;
    forall k | 0 < k < |gaps| ensures gaps[k] == more[k - 1] { }
  }

  function DropSeparators(s: string): (r: string)
    ensures |r| <= |s| && r == s[|s| - |r|..]
    ensures r == [] || !IsTokenSeparator(r[0])
    ensures forall j :: 0 <= j < |s| - |r| ==> IsTokenSeparator(s[j])
  {
    if s != [] && IsTokenSeparator(s[0]) then DropSeparators(s[1..]) else s
  }

  function Word(s: string): (r: string)
    ensures r <= s
    ensures forall j :: 0 <= j < |r| ==> !IsTokenSeparator(r[j])
    ensures s != [] && !IsTokenSeparator(s[0]) ==> r != []
    ensures |r| < |s| ==> IsTokenSeparator(s[|r|])
  {
    if s != [] && !IsTokenSeparator(s[0]) then [s[0]] + Word(s[1..]) else []
  }
}
