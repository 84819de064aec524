/**
 * The handful of Python `str` operations the backend relies on, written out
 * as explicit scanners over `seq<char>`: whitespace, `strip`, `find`,
 * `split`, `join`, `replace`, slicing to a maximum length and `str(int)`.
 */
module Text {
  import opened Wrappers

  /** Python's `str.isspace` for one character: the set `\s` and the
      argument-less `strip()` use. */
  predicate IsSpace(c: char) {
    || ('\t' <= c <= '\r')
    || ('\U{1C}' <= c <= ' ')
    || c == '\U{85}' || c == '\U{A0}' || c == '\U{1680}'
    || ('\U{2000}' <= c <= '\U{200A}')
    || c == '\U{2028}' || c == '\U{2029}' || c == '\U{202F}'
    || c == '\U{205F}' || c == '\U{3000}'
  }

  predicate IsQuote(c: char) {
    c == '"'
  }

  predicate NoSpace(s: string) {
    forall i :: 0 <= i < |s| ==> !IsSpace(s[i])
  }

  predicate StartsWith(s: string, p: string) {
    |p| <= |s| && s[..|p|] == p
  }

  predicate EndsWith(s: string, p: string) {
    |p| <= |s| && s[|s| - |p|..] == p
  }

  /** `p` occurs in `s` starting at index `i`. */
  predicate OccursAt(s: string, p: string, i: int) {
    0 <= i && i + |p| <= |s| && s[i..i + |p|] == p
  }

  /* ---------------------------------------------------------------- strip */

  /** Drops the longest prefix of characters satisfying `drop`. */
  function TrimStart(s: string, drop: char -> bool): string
    decreases |s|
  {
    if |s| > 0 && drop(s[0]) then TrimStart(s[1..], drop) else s
  }

  /** Drops the longest suffix of characters satisfying `drop`. */
  function TrimEnd(s: string, drop: char -> bool): string
    decreases |s|
  {
    if |s| > 0 && drop(s[|s| - 1]) then TrimEnd(s[..|s| - 1], drop) else s
  }

  /** What trimming the front leaves: a suffix that starts with a kept
      character, everything before it dropped. */
  lemma {:induction false} TrimStartSpec(s: string, drop: char -> bool)
    ensures |TrimStart(s, drop)| <= |s|
    ensures TrimStart(s, drop) == s[|s| - |TrimStart(s, drop)|..]
    ensures TrimStart(s, drop) == [] || !drop(TrimStart(s, drop)[0])
    ensures forall i :: 0 <= i < |s| - |TrimStart(s, drop)| ==> drop(s[i])
    decreases |s|
  {
    if |s| > 0 && drop(s[0]) {
      TrimStartSpec(s[1..], drop);
    }
  }

  /** What trimming the back leaves: a prefix that ends with a kept
      character, everything after it dropped. */
  lemma {:induction false} TrimEndSpec(s: string, drop: char -> bool)
    ensures |TrimEnd(s, drop)| <= |s|
    ensures TrimEnd(s, drop) == s[..|TrimEnd(s, drop)|]
    ensures TrimEnd(s, drop) == [] || !drop(TrimEnd(s, drop)[|TrimEnd(s, drop)| - 1])
    ensures forall i :: |TrimEnd(s, drop)| <= i < |s| ==> drop(s[i])
    decreases |s|
  {
    if |s| > 0 && drop(s[|s| - 1]) {
      TrimEndSpec(s[..|s| - 1], drop);
    }
  }

  /** Python's `s.strip()`. */
  function Strip(s: string): string {
    TrimEnd(TrimStart(s, IsSpace), IsSpace)
  }

  /** Python's `s.strip('"')`: every leading and trailing double quote goes. */
  function StripQuotes(s: string): string {
    TrimEnd(TrimStart(s, IsQuote), IsQuote)
  }

  /** Both ends of a stripped string are kept characters. */
  lemma {:induction false} StripEnds(s: string)
    ensures |Strip(s)| <= |s|
    ensures Strip(s) == [] || (!IsSpace(Strip(s)[0]) && !IsSpace(Strip(s)[|Strip(s)| - 1]))
  {
    var t := TrimStart(s, IsSpace);
    TrimStartSpec(s, IsSpace);
    TrimEndSpec(t, IsSpace);
  }

  lemma {:induction false} StripQuotesEnds(s: string)
    ensures |StripQuotes(s)| <= |s|
    ensures StripQuotes(s) == [] || (!IsQuote(StripQuotes(s)[0]) && !IsQuote(StripQuotes(s)[|StripQuotes(s)| - 1]))
  {
    var t := TrimStart(s, IsQuote);
    TrimStartSpec(s, IsQuote);
    TrimEndSpec(t, IsQuote);
  }

  /** Stripping leaves a string alone exactly when its ends are kept. */
  lemma {:induction false} TrimStartKeeps(s: string, drop: char -> bool)
    requires s == [] || !drop(s[0])
    ensures TrimStart(s, drop) == s
  {
  }

  lemma {:induction false} TrimEndKeeps(s: string, drop: char -> bool)
    requires s == [] || !drop(s[|s| - 1])
    ensures TrimEnd(s, drop) == s
  {
  }

  lemma {:induction false} StripKeeps(s: string)
    requires s == [] || (!IsSpace(s[0]) && !IsSpace(s[|s| - 1]))
    ensures Strip(s) == s
  {
    TrimStartKeeps(s, IsSpace);
    TrimEndKeeps(s, IsSpace);
  }

  lemma {:induction false} StripQuotesKeeps(s: string)
    requires s == [] || (!IsQuote(s[0]) && !IsQuote(s[|s| - 1]))
    ensures StripQuotes(s) == s
  {
    TrimStartKeeps(s, IsQuote);
    TrimEndKeeps(s, IsQuote);
  }

  lemma {:induction false} TrimStartPast(pre: string, s: string, drop: char -> bool)
    requires forall i :: 0 <= i < |pre| ==> drop(pre[i])
    requires s == [] || !drop(s[0])
    ensures TrimStart(pre + s, drop) == s
    decreases |pre|
  {
    if |pre| > 0 {
      assert (pre + s)[1..] == pre[1..] + s;
      TrimStartPast(pre[1..], s, drop);
    } else {
      assert pre + s == s;
    }
  }

  lemma {:induction false} TrimEndPast(s: string, post: string, drop: char -> bool)
    requires forall i :: 0 <= i < |post| ==> drop(post[i])
    requires s == [] || !drop(s[|s| - 1])
    ensures TrimEnd(s + post, drop) == s
    decreases |post|
  {
    if |post| > 0 {
      assert (s + post)[..|s + post| - 1] == s + post[..|post| - 1];
      TrimEndPast(s, post[..|post| - 1], drop);
    } else {
      assert s + post == s;
    }
  }

  /** Trimming `pre + s + post` gives `s` when the padding is all dropped
      characters and the ends of `s` are not. */
  lemma {:induction false} TrimBothPast(pre: string, s: string, post: string, drop: char -> bool)
    requires forall i :: 0 <= i < |pre| ==> drop(pre[i])
    requires forall i :: 0 <= i < |post| ==> drop(post[i])
    requires s == [] || (!drop(s[0]) && !drop(s[|s| - 1]))
    ensures TrimEnd(TrimStart(pre + s + post, drop), drop) == s
  {
    if s == [] {
      TrimAllDropped(pre, post, drop);
    } else {
      assert pre + s + post == pre + (s + post);
      TrimStartPast(pre, s + post, drop);
      TrimEndPast(s, post, drop);
    }
  }

  lemma {:induction false} TrimAllDropped(pre: string, post: string, drop: char -> bool)
    requires forall i :: 0 <= i < |pre| ==> drop(pre[i])
    requires forall i :: 0 <= i < |post| ==> drop(post[i])
    ensures TrimStart(pre + [] + post, drop) == []
    decreases |pre|
  {
    if |pre| > 0 {
      assert (pre + [] + post)[1..] == pre[1..] + [] + post;
      TrimAllDropped(pre[1..], post, drop);
    } else {
      assert pre + [] + post == post;
      assert post + [] == post;
      TrimStartPast(post, [], drop);
    }
  }

  /* ------------------------------------------------------------ words */

  /** Length of the run of non-whitespace characters at the head of `t`. */
  function RunLength(t: string): (n: nat)
    ensures n <= |t|
    ensures forall i :: 0 <= i < n ==> !IsSpace(t[i])
    ensures n == |t| || IsSpace(t[n])
    decreases |t|
  {
    if |t| == 0 || IsSpace(t[0]) then 0 else 1 + RunLength(t[1..])
  }

  /** A word closed by whitespace or the end of the text is the whole run. */
  lemma {:induction false} RunLengthOfWord(w: string, rest: string)
    requires NoSpace(w)
    requires rest == [] || IsSpace(rest[0])
    ensures RunLength(w + rest) == |w|
    decreases |w|
  {
    if |w| > 0 {
      assert (w + rest)[1..] == w[1..] + rest;
      RunLengthOfWord(w[1..], rest);
    }
  }

  /* ----------------------------------------------------------------- find */

  /** Python's `s.find(p, from)`: the first occurrence of `p` at or after `from`. */
  function FindFrom(s: string, p: string, from: nat): (r: Option<nat>)
    ensures r.Some? ==> from <= r.value && r.value + |p| <= |s|
    decreases |s| - from
  {
    if from + |p| > |s| then None
    else if s[from..from + |p|] == p then Some(from)
    else FindFrom(s, p, from + 1)
  }

  /** `find` returns the first occurrence at or after `from`, and nothing
      exactly when there is none. */
  lemma {:induction false} FindFromSpec(s: string, p: string, from: nat)
    ensures FindFrom(s, p, from).Some? ==>
              from <= FindFrom(s, p, from).value && OccursAt(s, p, FindFrom(s, p, from).value)
    ensures FindFrom(s, p, from).Some? ==>
              forall j :: from <= j < FindFrom(s, p, from).value ==> !OccursAt(s, p, j)
    ensures FindFrom(s, p, from).None? ==> forall j :: from <= j ==> !OccursAt(s, p, j)
    decreases |s| - from
  {
    if from + |p| <= |s| && s[from..from + |p|] != p {
      FindFromSpec(s, p, from + 1);
    }
  }

  /** A found position is an occurrence at or after `from`. */
  lemma {:induction false} FoundOccurs(s: string, p: string, from: nat, i: nat)
    requires FindFrom(s, p, from) == Some(i)
    ensures from <= i && OccursAt(s, p, i)
  {
    FindFromSpec(s, p, from);
  }

  /** `p` occurs nowhere in `[lo, hi)`. */
  predicate NoneBetween(s: string, p: string, lo: int, hi: int) {
    forall j :: lo <= j < hi ==> !OccursAt(s, p, j)
  }

  /** Nothing before a found position, from `from` on, is an occurrence. */
  lemma {:induction false} FoundIsFirst(s: string, p: string, from: nat, i: nat)
    requires FindFrom(s, p, from) == Some(i)
    ensures NoneBetween(s, p, from, i)
  {
    FindFromSpec(s, p, from);
  }

  /** An occurrence at or after `from` is found, at it or before it. */
  lemma {:induction false} OccurrenceFound(s: string, p: string, from: nat, j: int)
    requires from <= j && OccursAt(s, p, j)
    ensures FindFrom(s, p, from).Some? && FindFrom(s, p, from).value <= j
  {
    FindFromSpec(s, p, from);
  }

  /** One character of an occurrence. */
  lemma {:induction false} OccurrenceChar(s: string, p: string, j: int, k: int)
    requires OccursAt(s, p, j) && 0 <= k < |p|
    ensures s[j + k] == p[k]
  {
    assert s[j..j + |p|][k] == p[k];
  }

  /** One mismatching character rules an occurrence out. */
  lemma {:induction false} Mismatch(s: string, p: string, j: int, k: int)
    requires 0 <= j && 0 <= k < |p| && j + k < |s| && s[j + k] != p[k]
    ensures !OccursAt(s, p, j)
  {
    if OccursAt(s, p, j) {
      OccurrenceChar(s, p, j, k);
    }
  }

  /** An occurrence inside a slice is an occurrence in the whole. */
  lemma {:induction false} OccursInSlice(s: string, p: string, a: nat, b: nat, j: int)
    requires a <= b <= |s| && OccursAt(s[a..b], p, j)
    ensures OccursAt(s, p, a + j)
  {
    forall k | 0 <= k < |p| ensures s[a + j + k] == p[k] {
      OccurrenceChar(s[a..b], p, j, k);
    }
  }

  /** An occurrence lying inside the front part of a concatenation. */
  lemma {:induction false} OccursInFront(x: string, y: string, p: string, j: int)
    requires OccursAt(x + y, p, j) && j + |p| <= |x|
    ensures OccursAt(x, p, j)
  {
    assert (x + y)[..|x|] == x;
    OccursInSlice(x + y, p, 0, |x|, j);
  }

  /** `find` returns `i` when `p` occurs at `i` and nowhere between `from`
      and `i`. */
  lemma {:induction false} FindFromAt(s: string, p: string, from: nat, i: nat)
    requires from <= i && OccursAt(s, p, i)
    requires forall j :: from <= j < i ==> !OccursAt(s, p, j)
    ensures FindFrom(s, p, from) == Some(i)
  {
    FindFromSpec(s, p, from);
  }

  /** An occurrence in the front part with none before it is the first one
      in the whole text. */
  lemma {:induction false} FindInFront(x: string, y: string, p: string, i: nat)
    requires i + |p| <= |x| && OccursAt(x, p, i) && NoneBetween(x, p, 0, i)
    ensures FindFrom(x + y, p, 0) == Some(i)
  {
    assert (x + y)[i..i + |p|] == x[i..i + |p|];
    forall j | 0 <= j < i ensures !OccursAt(x + y, p, j) {
      if OccursAt(x + y, p, j) {
        OccursInFront(x, y, p, j);
      }
    }
    FindFromAt(x + y, p, 0, i);
  }

  /** Python's `p in s`. */
  predicate Contains(s: string, p: string) {
    FindFrom(s, p, 0).Some?
  }

  /* --------------------------------------------------- split, join, replace */

  /** Python's `sep.join(parts)`. */
  function Join(parts: seq<string>, sep: string): string {
    if |parts| == 0 then ""
    else if |parts| == 1 then parts[0]
    else parts[0] + sep + Join(parts[1..], sep)
  }

  /** Python's `s.split(sep)`, as a left-to-right scanner: each occurrence of
      `sep` closes the current piece, every other character extends it. */
  function Split(s: string, sep: string): (parts: seq<string>)
    requires |sep| > 0
    ensures |parts| >= 1
    decreases |s|
  {
    if |s| < |sep| then [s]
    else if s[..|sep|] == sep then [""] + Split(s[|sep|..], sep)
    else
      var rest := Split(s[1..], sep);
      [[s[0]] + rest[0]] + rest[1..]
  }

  /** Python's `s.replace(p, r)`: every non-overlapping occurrence of `p`,
      found left to right, becomes `r`; the replacement is not re-scanned. */
  function ReplaceAll(s: string, p: string, r: string): string
    requires |p| > 0
    decreases |s|
  {
    if |s| < |p| then s
    else if s[..|p|] == p then r + ReplaceAll(s[|p|..], p, r)
    else [s[0]] + ReplaceAll(s[1..], p, r)
  }

  lemma {:induction false} JoinConsHead(c: char, parts: seq<string>, sep: string)
    requires |parts| >= 1
    ensures Join([[c] + parts[0]] + parts[1..], sep) == [c] + Join(parts, sep)
  {
    var q := [[c] + parts[0]] + parts[1..];
    if |parts| > 1 {
      assert q[1..] == parts[1..];
    }
  }

  lemma {:induction false} JoinFront(head: string, parts: seq<string>, sep: string)
    requires |parts| >= 1
    ensures Join([head] + parts, sep) == head + sep + Join(parts, sep)
  {
    assert ([head] + parts)[1..] == parts;
  }

  /** `replace` is `split` followed by `join`, the identity Python documents. */
  lemma {:induction false} ReplaceIsSplitThenJoin(s: string, p: string, r: string)
    requires |p| > 0
    ensures ReplaceAll(s, p, r) == Join(Split(s, p), r)
    decreases |s|
  {
    if |s| < |p| {
    } else if s[..|p|] == p {
      var t := s[|p|..];
      assert ReplaceAll(s, p, r) == r + ReplaceAll(t, p, r);
      assert Split(s, p) == [""] + Split(t, p);
      assert ReplaceAll(t, p, r) == Join(Split(t, p), r) by { ReplaceIsSplitThenJoin(t, p, r); }
      JoinFront("", Split(t, p), r);
    } else {
      var rest := Split(s[1..], p);
      assert ReplaceAll(s, p, r) == [s[0]] + ReplaceAll(s[1..], p, r);
      assert Split(s, p) == [[s[0]] + rest[0]] + rest[1..];
      assert ReplaceAll(s[1..], p, r) == Join(rest, r) by { ReplaceIsSplitThenJoin(s[1..], p, r); }
      JoinConsHead(s[0], rest, r);
    }
  }

  /** Replacing a pattern by itself changes nothing. */
  lemma {:induction false} ReplaceBySelf(s: string, p: string)
    requires |p| > 0
    ensures ReplaceAll(s, p, p) == s
    decreases |s|
  {
    if |s| < |p| {
    } else if s[..|p|] == p {
      ReplaceBySelf(s[|p|..], p);
      assert s == p + s[|p|..];
    } else {
      ReplaceBySelf(s[1..], p);
      assert s == [s[0]] + s[1..];
    }
  }

  /** Joining the pieces of a split with the same separator restores the text. */
  lemma {:induction false} SplitThenJoin(s: string, sep: string)
    requires |sep| > 0
    ensures Join(Split(s, sep), sep) == s
  {
    ReplaceIsSplitThenJoin(s, sep, sep);
    ReplaceBySelf(s, sep);
  }

  /** A text in which the pattern's first character never appears is left alone. */
  lemma {:induction false} ReplaceAbsent(s: string, p: string, r: string)
    requires |p| > 0 && p[0] !in s
    ensures ReplaceAll(s, p, r) == s
    decreases |s|
  {
    if |s| < |p| {
    } else {
      assert s[..|p|][0] == s[0] != p[0];
      ReplaceAbsent(s[1..], p, r);
      assert s == [s[0]] + s[1..];
    }
  }

  lemma {:induction false} SplitWithoutSeparator(s: string, c: char)
    requires c !in s
    ensures Split(s, [c]) == [s]
    decreases |s|
  {
    if |s| >= 1 {
      assert s[..1] == [s[0]] != [c];
      SplitWithoutSeparator(s[1..], c);
      assert s == [s[0]] + s[1..];
    }
  }

  lemma {:induction false} SplitAfterPiece(x: string, c: char, t: string)
    requires c !in x
    ensures Split(x + [c] + t, [c]) == [x] + Split(t, [c])
    decreases |x|
  {
    var s := x + [c] + t;
    if |x| == 0 {
      assert s[..1] == [c];
      assert s[1..] == t;
    } else {
      assert s[..1] == [x[0]] != [c];
      assert s[1..] == x[1..] + [c] + t;
      SplitAfterPiece(x[1..], c, t);
      assert [x[0]] + x[1..] == x;
    }
  }

  /** Splitting at one more separator: the pieces of each side, in order. */
  lemma {:induction false} SplitAppend(a: string, c: char, b: string)
    ensures Split(a + [c] + b, [c]) == Split(a, [c]) + Split(b, [c])
    decreases |a|
  {
    var s := a + [c] + b;
    if |a| == 0 {
      assert s[..1] == [c] && s[1..] == b;
    } else if a[0] == c {
      assert s[..1] == [c] && s[1..] == a[1..] + [c] + b;
      assert a[..1] == [c] && a[1..] == a[1..];
      SplitAppend(a[1..], c, b);
    } else {
      assert s[..1] == [a[0]] != [c];
      assert a[..1] == [a[0]];
      assert s[1..] == a[1..] + [c] + b;
      SplitAppend(a[1..], c, b);
      var rest := Split(a[1..], [c]);
      assert (rest + Split(b, [c]))[0] == rest[0];
      assert (rest + Split(b, [c]))[1..] == rest[1..] + Split(b, [c]);
    }
  }

  /** Splitting on a one-character separator undoes a join with it, provided
      no piece contains that character. */
  lemma {:induction false} JoinThenSplit(parts: seq<string>, c: char)
    requires |parts| >= 1
    requires forall k :: 0 <= k < |parts| ==> c !in parts[k]
    ensures Split(Join(parts, [c]), [c]) == parts
    decreases |parts|
  {
    if |parts| == 1 {
      SplitWithoutSeparator(parts[0], c);
    } else {
      JoinThenSplit(parts[1..], c);
      SplitAfterPiece(parts[0], c, Join(parts[1..], [c]));
      assert [parts[0]] + parts[1..] == parts;
    }
  }

  /** A character absent from every piece and from the separator is absent
      from the joined text. */
  lemma {:induction false} JoinAvoids(parts: seq<string>, sep: string, c: char)
    requires c !in sep
    requires forall k :: 0 <= k < |parts| ==> c !in parts[k]
    ensures c !in Join(parts, sep)
    decreases |parts|
  {
    if |parts| > 1 {
      JoinAvoids(parts[1..], sep, c);
    }
  }

  /** Python's `s or default` on a text column: empty (or NULL, read as
      empty) falls back to `default`. */
  function OrElse(s: string, default: string): (r: string)
    ensures s != "" ==> r == s
    ensures s == "" ==> r == default
  {
    if s == "" then default else s
  }

  /* ------------------------------------------------------------- truncate */

  /** Python's `s[:n]`: the first `n` characters, or all of `s` when shorter. */
  function Truncate(s: string, n: nat): (r: string)
    ensures |r| == (if |s| <= n then |s| else n)
    ensures r == s[..|r|]
  {
    if |s| <= n then s else s[..n]
  }

  /** Cutting to `n` and then to `m <= n` is cutting to `m`. */
  lemma {:induction false} TruncateTwice(s: string, n: nat, m: nat)
    requires m <= n
    ensures Truncate(Truncate(s, n), m) == Truncate(s, m)
  {
  }

  /* -------------------------------------------------------------- numbers */

  predicate IsDigit(c: char) {
    '0' <= c <= '9'
  }

  function DigitChar(d: nat): (c: char)
    requires d < 10
    ensures IsDigit(c) && (c as int) - ('0' as int) == d
  {
    (('0' as int) + d) as char
  }

  /** Python's `str(n)` for a natural number: decimal, no leading zeros. */
  function NatToString(n: nat): (r: string)
    ensures |r| >= 1
    ensures forall i :: 0 <= i < |r| ==> IsDigit(r[i])
    ensures |r| > 1 ==> r[0] != '0'
    decreases n
  {
    if n < 10 then [DigitChar(n)] else NatToString(n / 10) + [DigitChar(n % 10)]
  }

  /** Python's `str(i)`: a minus sign before the magnitude of a negative number. */
  function IntToString(i: int): (r: string)
    ensures |r| >= 1
    ensures forall k :: 0 <= k < |r| ==> IsDigit(r[k]) || r[k] == '-'
    ensures (i < 0) <==> r[0] == '-'
  {
    if i < 0 then "-" + NatToString(-i) else NatToString(i)
  }

  /** Reads a decimal numeral back. */
  function ParseNat(s: string): int
    requires forall i :: 0 <= i < |s| ==> IsDigit(s[i])
    decreases |s|
  {
    if |s| == 0 then 0
    else ParseNat(s[..|s| - 1]) * 10 + ((s[|s| - 1] as int) - ('0' as int))
  }

  function ParseInt(s: string): int
    requires |s| >= 1
    requires forall k :: 0 <= k < |s| ==> IsDigit(s[k]) || (k == 0 && s[k] == '-')
  {
    if s[0] == '-' then -ParseNat(s[1..]) else ParseNat(s)
  }

  lemma {:induction false} NatRoundTrip(n: nat)
    ensures ParseNat(NatToString(n)) == n
    decreases n
  {
    if n >= 10 {
      NatRoundTrip(n / 10);
      var r := NatToString(n);
      assert r[..|r| - 1] == NatToString(n / 10);
    }
  }

  /** The printed form of an integer reads back as that integer. */
  lemma {:induction false} IntRoundTrip(i: int)
    ensures ParseInt(IntToString(i)) == i
  {
    if i < 0 {
      NatRoundTrip(-i);
      assert IntToString(i)[1..] == NatToString(-i);
    } else {
      NatRoundTrip(i);
    }
  }
}
