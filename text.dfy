/**
 * The string operations of Rust's `str` that the program relies on, with the
 * same meaning: whitespace trimming, prefix tests, searching, splitting,
 * `lines`, `split_whitespace`, radix parsing of unsigned integers
 * (`from_str_radix` / `parse`) and the `{}` / `{:X}` / `{:x}` renderings.
 */
module Text {
  import opened Wrappers

  /** Unicode White_Space, the set `str::trim` and `split_whitespace` use. */
  predicate IsWhitespace(c: char) {
    c == ' ' || ('\t' <= c <= '\r') || c == '\U{85}' || c == '\U{A0}' || c == '\U{1680}'
    || ('\U{2000}' <= c <= '\U{200A}') || c == '\U{2028}' || c == '\U{2029}'
    || c == '\U{202F}' || c == '\U{205F}' || c == '\U{3000}'
  }

  predicate IsAsciiDigit(c: char) { '0' <= c <= '9' }

  predicate IsAsciiAlphanumeric(c: char) {
    IsAsciiDigit(c) || ('a' <= c <= 'z') || ('A' <= c <= 'Z')
  }

  /** `char::is_ascii_graphic`: U+0021 '!' ..= U+007E '~'. */
  predicate IsAsciiGraphic(c: char) { '!' <= c <= '~' }

  function TrimStart(s: string): (r: string)
    ensures |r| <= |s| && r == s[|s| - |r|..]
    ensures r == [] || !IsWhitespace(r[0])
    ensures forall i :: 0 <= i < |s| - |r| ==> IsWhitespace(s[i])
  {
    if s != [] && IsWhitespace(s[0]) then
      var r := TrimStart(s[1..]);
      DropFront(s, |r|);
      r
    else s
  }

  function TrimEnd(s: string): (r: string)
    ensures |r| <= |s| && r == s[..|r|]
    ensures r == [] || !IsWhitespace(r[|r| - 1])
    ensures forall i :: |r| <= i < |s| ==> IsWhitespace(s[i])
  {
    if s != [] && IsWhitespace(s[|s| - 1]) then
      var r := TrimEnd(s[..|s| - 1]);
      DropBack(s, |r|);
      r
    else s
  }

  /** The last `n` characters of `s` after its first, and how the rest lines up. */
  lemma DropFront(s: string, n: nat)
    requires s != [] && n <= |s| - 1
    ensures s[1..][|s| - 1 - n..] == s[|s| - n..]
    ensures forall i :: 0 <= i < |s| - 1 - n ==> s[1..][i] == s[i + 1]
  {
  }

  /** The first `n` characters of `s` before its last, and how the rest lines up. */
  lemma DropBack(s: string, n: nat)
    requires s != [] && n <= |s| - 1
    ensures s[..|s| - 1][..n] == s[..n]
    ensures forall i :: n <= i < |s| - 1 ==> s[..|s| - 1][i] == s[i]
  {
  }

  /** `str::trim`. */
  function Trim(s: string): string {
    TrimEnd(TrimStart(s))
  }

  /** A text without whitespace is its own trim. */
  lemma TrimUnchanged(s: string)
    requires forall i :: 0 <= i < |s| ==> !IsWhitespace(s[i])
    ensures Trim(s) == s
  {
  }

  /** `str::trim_start_matches(c)` for a single character `c`. */
  function TrimStartChar(s: string, c: char): (r: string)
    ensures |r| <= |s| && r == s[|s| - |r|..]
    ensures r == [] || r[0] != c
    ensures forall i :: 0 <= i < |s| - |r| ==> s[i] == c
  {
    if s != [] && s[0] == c then
      var r := TrimStartChar(s[1..], c);
      DropFront(s, |r|);
      r
    else s
  }

  predicate StartsWith(s: string, prefix: string) {
    |prefix| <= |s| && s[..|prefix|] == prefix
  }

  /** `str::strip_prefix`. */
  function StripPrefix(s: string, prefix: string): (r: Option<string>)
    ensures r.Some? <==> StartsWith(s, prefix)
    ensures r.Some? ==> s == prefix + r.value
  {
    if StartsWith(s, prefix) then Some(s[|prefix|..]) else None
  }

  /** `pattern` occurs in `s` starting at index `k`. */
  predicate OccursAt(s: string, pattern: string, k: nat) {
    k + |pattern| <= |s| && s[k..k + |pattern|] == pattern
  }

  /** `str::find`: the index of the first occurrence of `pattern`. */
  function Find(s: string, pattern: string): (r: Option<nat>)
    ensures r.Some? ==> OccursAt(s, pattern, r.value)
    ensures r.Some? ==> forall k :: 0 <= k < r.value ==> !OccursAt(s, pattern, k)
    ensures r.None? ==> forall k :: 0 <= k <= |s| ==> !OccursAt(s, pattern, k)
    decreases |s|
  {
    if |s| < |pattern| then None
    else if s[..|pattern|] == pattern then Some(0)
    else
      ShiftedOccurrence(s, pattern);
      match Find(s[1..], pattern)
      case None => None
      case Some(i) => Some(i + 1)
  }

  lemma ShiftedOccurrence(s: string, pattern: string)
    requires s != []
    ensures forall k :: 1 <= k ==> (OccursAt(s, pattern, k) <==> OccursAt(s[1..], pattern, k - 1))
  {
    forall k | 1 <= k
      ensures OccursAt(s, pattern, k) <==> OccursAt(s[1..], pattern, k - 1)
    {
      if k + |pattern| <= |s| {
        assert s[1..][k - 1..k - 1 + |pattern|] == s[k..k + |pattern|];
      }
    }
  }

  predicate Contains(s: string, pattern: string) {
    Find(s, pattern).Some?
  }

  function Join(parts: seq<string>, sep: string): string
    decreases |parts|
  {
    if parts == [] then []
    else if |parts| == 1 then parts[0]
    else parts[0] + sep + Join(parts[1..], sep)
  }

  /** Joining two non-empty lists of parts puts the separator between their joins. */
  lemma {:induction false} JoinAppend(a: seq<string>, b: seq<string>, sep: string)
    requires a != [] && b != []
    ensures Join(a + b, sep) == Join(a, sep) + sep + Join(b, sep)
    decreases |a|
  {
    if |a| > 1 {
      JoinAppend(a[1..], b, sep);
      assert (a + b)[1..] == a[1..] + b;
    }
  }

  /** `str::split` with a non-empty pattern: the pieces between the occurrences. */
  function Split(s: string, sep: string): (parts: seq<string>)
    requires sep != []
    ensures |parts| >= 1
    ensures Join(parts, sep) == s
    decreases |s|
  {
    match Find(s, sep)
    case None => [s]
    case Some(i) =>
      var rest := Split(s[i + |sep|..], sep);
      var parts := [s[..i]] + rest;
      assert parts[0] == s[..i] && parts[1..] == rest;
      assert Join(parts, sep) == s[..i] + sep + Join(rest, sep);
      assert s == s[..i] + s[i..i + |sep|] + s[i + |sep|..];
      parts
  }

  /** Every character of a joined string comes from one of the parts or from the separator. */
  lemma {:induction false} JoinChars(parts: seq<string>, sep: string, c: char)
    requires c in Join(parts, sep)
    ensures c in sep || exists i :: 0 <= i < |parts| && c in parts[i]
    decreases |parts|
  {
    if |parts| > 1 && c !in parts[0] && c !in sep {
      JoinChars(parts[1..], sep, c);
      var i :| 0 <= i < |parts| - 1 && c in parts[1..][i];
      assert c in parts[i + 1];
    }
  }

  /** A character absent from `s` is not found in it. */
  lemma FindAbsent(s: string, c: char)
    requires c !in s
    ensures Find(s, [c]) == None
  {
    forall k | 0 <= k <= |s|
      ensures !OccursAt(s, [c], k)
    {
      if k < |s| {
        assert s[k..k + 1] == [s[k]];
      }
    }
  }

  /** The first occurrence of `c` in `pre + [c] + post` is right after `pre` when `pre` lacks it. */
  lemma FindAfter(pre: string, c: char, post: string)
    requires c !in pre
    ensures Find(pre + [c] + post, [c]) == Some(|pre|)
  {
    var s := pre + [c] + post;
    assert OccursAt(s, [c], |pre|) by { assert s[|pre|..|pre| + 1] == [c]; }
    forall k | 0 <= k < |pre|
      ensures !OccursAt(s, [c], k)
    {
      assert s[k..k + 1][0] == pre[k];
    }
  }

  /** Splitting at a one-character separator cuts first after a leading part that lacks it. */
  lemma SplitFirst(first: string, c: char, rest: string)
    requires c !in first
    ensures Split(first + [c] + rest, [c]) == [first] + Split(rest, [c])
  {
    var s := first + [c] + rest;
    FindAfter(first, c, rest);
    assert s[|first| + 1..] == rest;
    assert s[..|first|] == first;
  }

  /** Splitting at a one-character separator undoes joining parts that lack it. */
  lemma {:induction false} SplitJoin(parts: seq<string>, c: char)
    requires |parts| >= 1
    requires forall i :: 0 <= i < |parts| ==> c !in parts[i]
    ensures Split(Join(parts, [c]), [c]) == parts
    decreases |parts|
  {
    if |parts| == 1 {
      FindAbsent(parts[0], c);
    } else {
      var rest := Join(parts[1..], [c]);
      assert Join(parts, [c]) == parts[0] + [c] + rest;
      SplitFirst(parts[0], c, rest);
      SplitJoin(parts[1..], c);
      assert parts == [parts[0]] + parts[1..];
    }
  }

  /** `str::split_once`. */
  function SplitOnce(s: string, sep: string): (r: Option<(string, string)>)
    requires sep != []
    ensures r.Some? ==> r.value.0 + sep + r.value.1 == s
    ensures r.Some? ==> !Contains(r.value.0 + sep[..|sep| - 1], sep)
    ensures r.None? <==> !Contains(s, sep)
  {
    match Find(s, sep)
    case None => None
    case Some(i) =>
      assert s[..i] + sep + s[i + |sep|..] == s;
      PrefixFreeBefore(s, sep, i);
      Some((s[..i], s[i + |sep|..]))
  }

  lemma PrefixFreeBefore(s: string, sep: string, i: nat)
    requires sep != [] && OccursAt(s, sep, i)
    requires forall k :: 0 <= k < i ==> !OccursAt(s, sep, k)
    ensures !Contains(s[..i] + sep[..|sep| - 1], sep)
  {
    var t := s[..i] + sep[..|sep| - 1];
    assert t == s[..i + |sep| - 1];
    forall k | 0 <= k <= |t|
      ensures !OccursAt(t, sep, k)
    {
      assert OccursAt(t, sep, k) ==> k < i && t[k..k + |sep|] == s[k..k + |sep|];
      assert OccursAt(t, sep, k) ==> OccursAt(s, sep, k);
    }
  }

  /** A token of `split_whitespace`: non-empty and free of whitespace. */
  predicate IsToken(t: string) {
    t != [] && forall j :: 0 <= j < |t| ==> !IsWhitespace(t[j])
  }

  /** The non-empty runs of non-whitespace, as `str::split_whitespace` yields them. */
  function SplitWhitespace(s: string): (tokens: seq<string>)
    ensures forall i :: 0 <= i < |tokens| ==> IsToken(tokens[i])
    decreases |s|
  {
    var t := TrimStart(s);
    if t == [] then []
    else
      var n := TokenLength(t);
      FirstToken(t, n);
      TokensCons(t[..n], SplitWhitespace(t[n..]));
      [t[..n]] + SplitWhitespace(t[n..])
  }

  /** The leading run of a text that starts with a non-whitespace character is a token. */
  lemma FirstToken(t: string, n: nat)
    requires n <= |t| && n >= 1
    requires forall i :: 0 <= i < n ==> !IsWhitespace(t[i])
    ensures IsToken(t[..n])
  {
  }

  /** A token in front of a list of tokens gives a list of tokens. */
  lemma TokensCons(t: string, rest: seq<string>)
    requires IsToken(t) && forall i :: 0 <= i < |rest| ==> IsToken(rest[i])
    ensures forall i :: 0 <= i < |[t] + rest| ==> IsToken(([t] + rest)[i])
  {
  }

  /** Length of the leading run of non-whitespace characters. */
  function TokenLength(s: string): (n: nat)
    ensures n <= |s|
    ensures forall i :: 0 <= i < n ==> !IsWhitespace(s[i])
    ensures n < |s| ==> IsWhitespace(s[n])
    ensures s != [] && !IsWhitespace(s[0]) ==> n >= 1
  {
    if s == [] || IsWhitespace(s[0]) then 0 else 1 + TokenLength(s[1..])
  }

  /**
   * `str::lines`: split at '\n', drop a '\r' ending a terminated line, and
   * do not report an empty piece after a final '\n'.
   */
  function Lines(s: string): seq<string> {
    var pieces := Split(s, "\n");
    var last := pieces[|pieces| - 1];
    var terminated := seq(|pieces| - 1, i requires 0 <= i < |pieces| - 1 => StripCarriageReturn(pieces[i]));
    if last == [] then terminated else terminated + [last]
  }

  function StripCarriageReturn(line: string): string {
    if line != [] && line[|line| - 1] == '\r' then line[..|line| - 1] else line
  }

  /** `u8::is_ascii_lowercase` applied to every character (`to_ascii_lowercase`). */
  function ToAsciiLowercase(s: string): (r: string)
    ensures |r| == |s|
  {
    seq(|s|, i requires 0 <= i < |s| => if 'A' <= s[i] <= 'Z' then (s[i] as int + 32) as char else s[i])
  }

  // ---- digits and radix conversion -------------------------------------

  /** `char::to_digit(radix)` for 2 <= radix <= 36. */
  function DigitValue(c: char, radix: nat): (d: Option<nat>)
    requires 2 <= radix <= 36
    ensures d.Some? ==> d.value < radix
  {
    var v := if '0' <= c <= '9' then c as int - '0' as int
             else if 'a' <= c <= 'z' then c as int - 'a' as int + 10
             else if 'A' <= c <= 'Z' then c as int - 'A' as int + 10
             else 36;
    if v < radix then Some(v) else None
  }

  predicate AllDigits(s: string, radix: nat)
    requires 2 <= radix <= 36
  {
    forall i :: 0 <= i < |s| ==> DigitValue(s[i], radix).Some?
  }

  /** The value of a digit string, most significant digit first. */
  function Value(s: string, radix: nat): nat
    requires 2 <= radix <= 36 && AllDigits(s, radix)
    decreases |s|
  {
    if s == [] then 0
    else
      DigitsInit(s, radix);
      var v := Value(s[..|s| - 1], radix);
      NatProduct(v, radix);
      v * radix + DigitValue(s[|s| - 1], radix).value
  }

  /** Dropping the last digit of a digit string leaves a digit string. */
  lemma DigitsInit(s: string, radix: nat)
    requires 2 <= radix <= 36 && AllDigits(s, radix) && s != []
    ensures AllDigits(s[..|s| - 1], radix) && DigitValue(s[|s| - 1], radix).Some?
  {
    var init := s[..|s| - 1];
    assert forall i :: 0 <= i < |init| ==> init[i] == s[i];
  }

  lemma NatProduct(a: nat, b: nat)
    ensures a * b >= 0
  {
  }

  /**
   * `from_str_radix` / `str::parse` for an unsigned type whose values are
   * those below `bound`: an optional '+', then at least one digit; leading
   * zeros are allowed; an out-of-range value is an error.
   */
  function ParseUnsigned(s: string, radix: nat, bound: nat): (r: Option<nat>)
    requires 2 <= radix <= 36
    ensures r.Some? ==> r.value < bound
  {
    var digits := if s != [] && s[0] == '+' then s[1..] else s;
    if digits == [] || !AllDigits(digits, radix) then None
    else
      var v := Value(digits, radix);
      if v < bound then Some(v) else None
  }

  function ParseU8(s: string): Option<nat> { ParseUnsigned(s, 10, 0x100) }

  function ParseU16(s: string): Option<nat> { ParseUnsigned(s, 10, 0x1_0000) }

  function DigitChar(d: nat, upper: bool): (c: char)
    requires d < 36
    ensures DigitValue(c, 36) == Some(d)
  {
    if d < 10 then ('0' as int + d) as char
    else if upper then ('A' as int + d - 10) as char
    else ('a' as int + d - 10) as char
  }

  /** The digits of `n` in `radix`, without leading zeros (`{}`, `{:X}`, `{:x}`). */
  function ToRadix(n: nat, radix: nat, upper: bool): (s: string)
    requires 2 <= radix <= 36
    ensures s != [] && (|s| > 1 ==> s[0] != '0')
    ensures AllDigits(s, radix) && Value(s, radix) == n
    decreases n
  {
    DivMod(n, radix);
    var d := n % radix;
    var last := DigitChar(d, upper);
    DigitInRadix(last, d, radix);
    if n < radix then
      AppendDigit([], last, radix);
      [last]
    else
      var q := n / radix;
      var front := ToRadix(q, radix, upper);
      AppendDigit(front, last, radix);
      NoLeadingZero(front, last, radix);
      front + [last]
  }

  lemma DivMod(n: nat, radix: nat)
    requires radix >= 2
    ensures (n / radix) * radix + n % radix == n
    ensures n % radix < radix && (n >= radix ==> 1 <= n / radix < n) && (n < radix ==> n % radix == n)
  {
  }

  lemma DigitInRadix(c: char, d: nat, radix: nat)
    requires 2 <= radix <= 36 && d < radix && DigitValue(c, 36) == Some(d)
    ensures DigitValue(c, radix) == Some(d)
  {
  }

  lemma AppendDigit(front: string, last: char, radix: nat)
    requires 2 <= radix <= 36 && AllDigits(front, radix) && DigitValue(last, radix).Some?
    ensures AllDigits(front + [last], radix)
    ensures Value(front + [last], radix) == Value(front, radix) * radix + DigitValue(last, radix).value
  {
    assert (front + [last])[..|front|] == front;
  }

  /** A digit appended to a positive number without a leading zero leaves none. */
  lemma NoLeadingZero(front: string, last: char, radix: nat)
    requires 2 <= radix <= 36 && AllDigits(front, radix) && Value(front, radix) >= 1
    requires |front| > 1 ==> front[0] != '0'
    ensures (front + [last])[0] != '0'
  {
    if |front| == 1 {
      assert front[..0] == [];
    }
  }

  function Decimal(n: nat): string { ToRadix(n, 10, true) }

  /** Reading back what `{}` printed gives the number when it is in range and an error otherwise. */
  lemma ParseDecimal(n: nat, bound: nat)
    ensures ParseUnsigned(Decimal(n), 10, bound) == if n < bound then Some(n) else None
  {
    var s := Decimal(n);
    assert s[0] != '+';
  }

  /** Text holding a character other than a digit or '+' is not a number. */
  lemma NotNumber(s: string, c: char, bound: nat)
    requires c in s && !IsAsciiDigit(c) && c != '+'
    ensures ParseUnsigned(s, 10, bound) == None
  {
    var i :| 0 <= i < |s| && s[i] == c;
    if s[0] == '+' {
      assert s[1..][i - 1] == c;
    }
  }

  /** Decimal digits are ASCII digits. */
  lemma DecimalDigits(n: nat)
    ensures forall i :: 0 <= i < |Decimal(n)| ==> IsAsciiDigit(Decimal(n)[i])
  {
    var s := Decimal(n);
    forall i | 0 <= i < |s|
      ensures IsAsciiDigit(s[i])
    {
      assert DigitValue(s[i], 10).Some?;
    }
  }

  /** Numbers below 1000 have at most three decimal digits. */
  lemma {:induction false} DecimalLength(n: nat)
    ensures n < 10 ==> |Decimal(n)| == 1
    ensures n < 100 ==> |Decimal(n)| <= 2
    ensures n < 1000 ==> |Decimal(n)| <= 3
  {
    DivMod(n, 10);
    if n >= 10 {
      DecimalLength(n / 10);
    }
  }
}
