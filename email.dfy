/** Trimming and validating the e-mail address typed into a notify-me form:
    `String.prototype.trim` and the fixed pattern `^[^\s@]+@[^\s@]+\.[^\s@]+$`
    of `isValidEmail`, both written out over `seq<char>`. */
module EmailValidation {

  /** The ECMAScript WhiteSpace and LineTerminator code points. This is the set that
      `\s` matches in a regular expression and also the set that `trim` strips. */
  const SpaceChars: set<char> := {
    '\t', '\n', '\U{000B}', '\U{000C}', '\r', ' ', '\U{00A0}', '\U{1680}',
    '\U{2000}', '\U{2001}', '\U{2002}', '\U{2003}', '\U{2004}', '\U{2005}',
    '\U{2006}', '\U{2007}', '\U{2008}', '\U{2009}', '\U{200A}',
    '\U{2028}', '\U{2029}', '\U{202F}', '\U{205F}', '\U{3000}', '\U{FEFF}'
  }

  predicate IsSpace(c: char) {
    c in SpaceChars
  }

  predicate AllSpace(s: string) {
    forall i :: 0 <= i < |s| ==> IsSpace(s[i])
  }

  predicate NoSpace(s: string) {
    forall i :: 0 <= i < |s| ==> !IsSpace(s[i])
  }

  /** Neither a space nor an `@` — the character class `[^\s@]`. */
  predicate PartChars(s: string) {
    forall i :: 0 <= i < |s| ==> !IsSpace(s[i]) && s[i] != '@'
  }

  // ---------------------------------------------------------------- trim

  /** The number of leading spaces of `s`. */
  function LeadingSpaces(s: string): (n: nat)
    ensures n <= |s| && AllSpace(s[..n])
    ensures n == |s| || !IsSpace(s[n])
  {
    if |s| > 0 && IsSpace(s[0]) then
      var n := LeadingSpaces(s[1..]);
      assert s[..n + 1] == [s[0]] + s[1..][..n];
      n + 1
    else 0
  }

  /** The length `s` has once its trailing spaces are dropped. */
  function TrailingStart(s: string): (n: nat)
    ensures n <= |s| && AllSpace(s[n..])
    ensures n == 0 || !IsSpace(s[n - 1])
  {
    if |s| > 0 && IsSpace(s[|s| - 1]) then
      var n := TrailingStart(s[..|s| - 1]);
      assert s[n..] == s[..|s| - 1][n..] + [s[|s| - 1]];
      n
    else |s|
  }

  /** Drops the leading spaces. */
  function TrimStart(s: string): string {
    s[LeadingSpaces(s)..]
  }

  /** Drops the trailing spaces. */
  function TrimEnd(s: string): string {
    s[..TrailingStart(s)]
  }

  /** `String.prototype.trim`. */
  function Trim(s: string): (r: string)
    ensures |r| <= |s|
    ensures r == [] || (!IsSpace(r[0]) && !IsSpace(r[|r| - 1]))
  {
    TrimEnd(TrimStart(s))
  }

  /** What `Trim` removes is space on both sides: `s` is `l + Trim(s) + rr`. */
  lemma TrimSplits(s: string) returns (l: string, rr: string)
    ensures s == l + Trim(s) + rr
    ensures AllSpace(l) && AllSpace(rr)
  {
    var t := TrimStart(s);
    var e := TrimEnd(t);
    var n := |s| - |t|;
    l, rr := s[..n], t[|e|..];
    SplitAt(s, n);
    SplitAt(t, |e|);
    Assoc(l, e, rr);
  }

  lemma SplitAt(s: string, n: nat)
    requires n <= |s|
    ensures s == s[..n] + s[n..]
  {
  }

  lemma Assoc(a: string, b: string, c: string)
    ensures a + (b + c) == a + b + c
  {
  }

  lemma {:induction false} TrimStartPadded(l: string, t: string)
    requires AllSpace(l)
    requires t == [] || !IsSpace(t[0])
    ensures TrimStart(l + t) == t
  {
    if l != [] {
      assert (l + t)[1..] == l[1..] + t;
      TrimStartPadded(l[1..], t);
    } else {
      assert l + t == t;
    }
  }

  lemma {:induction false} TrimEndPadded(t: string, rr: string)
    requires AllSpace(rr)
    requires t == [] || !IsSpace(t[|t| - 1])
    ensures TrimEnd(t + rr) == t
  {
    if rr != [] {
      assert (t + rr)[..|t + rr| - 1] == t + rr[..|rr| - 1];
      TrimEndPadded(t, rr[..|rr| - 1]);
    } else {
      assert t + rr == t;
    }
  }

  /** The other half of `TrimSplits`: padding a string that neither starts nor ends with a
      space by spaces on both sides and trimming gives the string back. Together the two
      say `Trim(s)` is the one core of `s` between its space margins. */
  lemma TrimPadded(l: string, e: string, rr: string)
    requires AllSpace(l) && AllSpace(rr)
    requires e == [] || (!IsSpace(e[0]) && !IsSpace(e[|e| - 1]))
    ensures Trim(l + e + rr) == e
  {
    if e == [] {
      assert l + e + rr == l + rr;
      assert AllSpace(l + rr);
      TrimStartPadded(l + rr, []);
      assert l + rr + [] == l + rr;
    } else {
      assert l + e + rr == l + (e + rr);
      TrimStartPadded(l, e + rr);
      TrimEndPadded(e, rr);
    }
  }

  /** Trimming twice is trimming once. */
  lemma TrimIdempotent(s: string)
    ensures Trim(Trim(s)) == Trim(s)
  {
    var e := Trim(s);
    TrimPadded([], e, []);
    assert [] + e + [] == e;
  }

  // ---------------------------------------------------------------- the pattern

  /** How many times `c` occurs in `s`. */
  function CountOf(s: string, c: char): (n: nat)
    ensures n <= |s|
    ensures n == 0 <==> c !in s
  {
    if s == [] then 0 else (if s[0] == c then 1 else 0) + CountOf(s[1..], c)
  }

  lemma {:induction false} CountOfConcat(a: string, b: string, c: char)
    ensures CountOf(a + b, c) == CountOf(a, c) + CountOf(b, c)
  {
    if a == [] {
      assert a + b == b;
    } else {
      assert (a + b)[1..] == a[1..] + b;
      CountOfConcat(a[1..], b, c);
    }
  }

  /** The first position of `c` in `s`. */
  function IndexOf(s: string, c: char): (k: nat)
    requires c in s
    ensures k < |s| && s[k] == c && c !in s[..k]
  {
    if s[0] == c then 0
    else
      assert s == [s[0]] + s[1..];
      var k := IndexOf(s[1..], c);
      assert s[..k + 1] == [s[0]] + s[1..][..k];
      k + 1
  }

  /** `d` holds a `.` that is neither its first nor its last character. */
  predicate HasInnerDot(d: string) {
    exists p :: 0 < p < |d| - 1 && d[p] == '.'
  }

  /** `isValidEmail` as a string predicate: no space, exactly one `@`, a non-empty part
      before it, and an inner `.` in the part after it. */
  predicate IsValidEmail(s: string) {
    NoSpace(s) && CountOf(s, '@') == 1 &&
    var k := IndexOf(s, '@');
    0 < k && HasInnerDot(s[k + 1..])
  }

  /** The language of `^[^\s@]+@[^\s@]+\.[^\s@]+$`, read off the pattern: three non-empty
      runs of `[^\s@]` separated by an `@` and a `.`. Greedy matching with backtracking
      accepts exactly these strings. */
  ghost predicate MatchesPattern(s: string) {
    exists i, j :: 0 < i && i + 1 < j && j + 1 < |s| && s[i] == '@' && s[j] == '.' &&
      PartChars(s[..i]) && PartChars(s[i + 1..j]) && PartChars(s[j + 1..])
  }

  lemma NoOtherAt(s: string, k: nat)
    requires CountOf(s, '@') == 1 && k < |s| && s[k] == '@'
    ensures '@' !in s[..k] && '@' !in s[k + 1..]
  {
    assert s == s[..k] + ([s[k]] + s[k + 1..]);
    CountOfConcat(s[..k], [s[k]] + s[k + 1..], '@');
    CountOfConcat([s[k]], s[k + 1..], '@');
  }

  /** A position of `c` with no `c` before it is the one `IndexOf` finds. */
  lemma IndexOfUnique(s: string, c: char, k: nat)
    requires k < |s| && s[k] == c && c !in s[..k]
    ensures IndexOf(s, c) == k
  {
    var m := IndexOf(s, c);
    forall x | 0 <= x < m ensures s[x] != c {
      assert s[..m][x] == s[x];
    }
    forall x | 0 <= x < k ensures s[x] != c {
      assert s[..k][x] == s[x];
    }
  }

  /** A slice of a space-free string without `@` is a run of `[^\s@]`. */
  lemma PieceChars(s: string, a: nat, b: nat)
    requires a <= b <= |s| && NoSpace(s) && '@' !in s[a..b]
    ensures PartChars(s[a..b])
  {
    var t := s[a..b];
    forall i | 0 <= i < |t| ensures !IsSpace(t[i]) && t[i] != '@' {
      assert t[i] == s[a + i];
    }
  }

  lemma PartCharsNoAt(t: string)
    requires PartChars(t)
    ensures '@' !in t && CountOf(t, '@') == 0
  {
  }

  lemma ValidImpliesPattern(s: string)
    requires IsValidEmail(s)
    ensures MatchesPattern(s)
  {
    var k := IndexOf(s, '@');
    var d := s[k + 1..];
    var p :| 0 < p < |d| - 1 && d[p] == '.';
    var j := k + 1 + p;
    NoOtherAt(s, k);
    PieceChars(s, 0, k);
    assert s[k + 1..j] == d[..p] && s[j + 1..] == d[p + 1..];
    assert '@' !in s[k + 1..j] && '@' !in s[j + 1..] by {
      forall x | 0 <= x < |d| ensures d[x] != '@' {
        assert d[x] in d;
      }
    }
    PieceChars(s, k + 1, j);
    PieceChars(s, j + 1, |s|);
    assert s[..k] == s[0..k] && s[j + 1..] == s[j + 1..|s|];
    assert s[k] == '@' && s[j] == '.';
  }

  lemma NoSpaceConcat(x: string, y: string)
    requires NoSpace(x) && NoSpace(y)
    ensures NoSpace(x + y)
  {
    forall n | 0 <= n < |x + y| ensures !IsSpace((x + y)[n]) {
      if n < |x| { assert (x + y)[n] == x[n]; } else { assert (x + y)[n] == y[n - |x|]; }
    }
  }

  /** The string the pattern's three runs and two separators spell. */
  lemma JoinedParts(a: string, b: string, c: string)
    requires PartChars(a) && PartChars(b) && PartChars(c)
    ensures NoSpace(a + (['@'] + (b + (['.'] + c))))
    ensures CountOf(a + (['@'] + (b + (['.'] + c))), '@') == 1
  {
    PartCharsNoAt(a);
    PartCharsNoAt(b);
    PartCharsNoAt(c);
    NoSpaceConcat(['.'], c);
    NoSpaceConcat(b, ['.'] + c);
    NoSpaceConcat(['@'], b + (['.'] + c));
    NoSpaceConcat(a, ['@'] + (b + (['.'] + c)));
    CountOfConcat(a, ['@'] + (b + (['.'] + c)), '@');
    CountOfConcat(['@'], b + (['.'] + c), '@');
    CountOfConcat(b, ['.'] + c, '@');
    CountOfConcat(['.'], c, '@');
  }

  lemma SplitPattern(s: string, i: nat, j: nat)
    requires i < j < |s|
    ensures s == s[..i] + ([s[i]] + (s[i + 1..j] + ([s[j]] + s[j + 1..])))
  {
  }

  lemma {:induction false} PatternImpliesValid(s: string)
    requires MatchesPattern(s)
    ensures IsValidEmail(s)
  {
    var i, j :| 0 < i && i + 1 < j && j + 1 < |s| && s[i] == '@' && s[j] == '.' &&
      PartChars(s[..i]) && PartChars(s[i + 1..j]) && PartChars(s[j + 1..]);
    var a, b, c := s[..i], s[i + 1..j], s[j + 1..];
    SplitPattern(s, i, j);
    JoinedParts(a, b, c);
    PartCharsNoAt(a);
    IndexOfUnique(s, '@', i);
    var d := s[i + 1..];
    assert d[j - i - 1] == '.';
    assert HasInnerDot(d);
  }

  /** The validator accepts exactly the strings the pattern matches. */
  lemma ValidIffPattern(s: string)
    ensures IsValidEmail(s) <==> MatchesPattern(s)
  {
    if IsValidEmail(s) {
      ValidImpliesPattern(s);
    }
    if MatchesPattern(s) {
      PatternImpliesValid(s);
    }
  }

  // ---------------------------------------------------------------- consequences

  /** A string without an `@` is rejected. */
  lemma NoAtRejected(s: string)
    requires '@' !in s
    ensures !IsValidEmail(s)
  {
  }

  /** A string with an `@` but no `.` after it is rejected. */
  lemma NoDotAfterAtRejected(s: string, k: nat)
    requires k < |s| && s[k] == '@' && '.' !in s[k + 1..]
    ensures !IsValidEmail(s)
  {
    if CountOf(s, '@') == 1 {
      NoOtherAt(s, k);
      IndexOfUnique(s, '@', k);
      var d := s[k + 1..];
      forall p | 0 < p < |d| - 1 ensures d[p] != '.' {
        assert d[p] in d;
      }
    }
  }

  /** Every `local@domain.tld` whose three parts are non-empty runs of non-space,
      non-`@` characters is accepted. */
  lemma ShapeAccepted(local: string, domain: string, tld: string)
    requires |local| > 0 && |domain| > 0 && |tld| > 0
    requires PartChars(local) && PartChars(domain) && PartChars(tld)
    ensures IsValidEmail(local + "@" + domain + "." + tld)
  {
    var s := local + "@" + domain + "." + tld;
    var i, j := |local|, |local| + 1 + |domain|;
    assert s[..i] == local && s[i + 1..j] == domain && s[j + 1..] == tld;
    assert s[i] == '@' && s[j] == '.';
    ValidIffPattern(s);
  }

  /** Spaces around an address are trimmed away before it is checked. */
  lemma PaddedAddressAccepted(l: string, e: string, rr: string)
    requires AllSpace(l) && AllSpace(rr) && IsValidEmail(e)
    ensures IsValidEmail(Trim(l + e + rr))
  {
    assert |e| > 0 by { assert CountOf(e, '@') == 1; }
    TrimPadded(l, e, rr);
  }

  lemma ExampleAccepted()
    ensures IsValidEmail("a@b.com")
  {
    ShapeAccepted("a", "b", "com");
    assert "a" + "@" + "b" + "." + "com" == "a@b.com";
  }

  lemma ExampleRejected()
    ensures !IsValidEmail("not-an-email")
  {
    var s := "not-an-email";
    assert forall i :: 0 <= i < |s| ==> s[i] != '@';
    NoAtRejected(s);
  }
}
