/**
 * The three-layer kernel composer (`load_agent_kernel`): the agent kernel
 * (or a one-line fallback) with `{TENANT_NAME}` and `{CHEMICAL_LIST}`
 * substituted, then one section per distinct `§tools/<ref>.ttc.md`
 * reference whose fragment file exists, then the tenant layer.
 */
module Kernel {
  import opened Wrappers
  import opened Text
  import opened Tenancy

  const AgentKernelPath := "/app/kernels/sds_v1.0.ttc.md"
  const FallbackKernel := "You are an SDS management assistant."
  const UnknownTenantName := "Unknown"
  const UnknownTenantSlug := "unknown"
  const TenantNameToken := "{TENANT_NAME}"
  const ChemicalListToken := "{CHEMICAL_LIST}"
  const EmptyRoster := "  No chemicals registered yet."
  /** The separator put before every appended layer. */
  const LayerRule := "\n\n---\n\n"
  const RefSigil := "§tools/"
  const RefSuffix := ".ttc.md"

  /** `Path(f"/app/kernels/tools/{ref}")`, normalised. */
  function ToolPath(ref: string): string {
    PurePath("/app/kernels/tools/" + ref)
  }

  /* ------------------------------------------------------ chemical roster */

  /** One row of the tenant's chemical registry. A SQL NULL and an empty
      string both read as "" here, as Python's `or` treats them alike. */
  datatype ChemicalRow = ChemicalRow(
    name: string, cas: string, storageClass: string,
    location: string, status: string, critical: bool)

  /** Python's `str(bool)`. */
  function BoolText(b: bool): string {
    if b then "True" else "False"
  }

  function RosterLine(ch: ChemicalRow): string {
    "  " + ch.name + ": CAS=" + OrElse(ch.cas, "N/A") + " | storage=" + ch.storageClass
    + " | loc=" + OrElse(ch.location, "unassigned") + " | status=" + ch.status
    + " | critical=" + BoolText(ch.critical)
  }

  function RosterLines(rows: seq<ChemicalRow>): (lines: seq<string>)
    ensures |lines| == |rows|
    ensures forall k :: 0 <= k < |rows| ==> lines[k] == RosterLine(rows[k])
  {
    if |rows| == 0 then [] else [RosterLine(rows[0])] + RosterLines(rows[1..])
  }

  lemma {:induction false} JoinKeepsHead(parts: seq<string>, sep: string)
    requires |parts| >= 1
    ensures |Join(parts, sep)| >= |parts[0]|
  {
  }

  /** The `{CHEMICAL_LIST}` value: the rows joined by newlines, or the
      "no chemicals" line when the joined text is empty. */
  function ChemicalList(rows: seq<ChemicalRow>): (r: string)
    ensures r == EmptyRoster <==> |rows| == 0
    ensures |rows| > 0 ==> r == Join(RosterLines(rows), "\n")
  {
    var joined := Join(RosterLines(rows), "\n");
    if |rows| > 0 then
      JoinKeepsHead(RosterLines(rows), "\n");
      assert |joined| > |EmptyRoster|;
      joined
    else if joined == "" then EmptyRoster else joined
  }

  predicate SingleLine(s: string) {
    '\n' !in s
  }

  /** No column of the row holds a line break. */
  predicate CleanRow(ch: ChemicalRow) {
    && SingleLine(ch.name) && SingleLine(ch.cas) && SingleLine(ch.storageClass)
    && SingleLine(ch.location) && SingleLine(ch.status)
  }

  predicate AllSingleLines(lines: seq<string>) {
    forall k :: 0 <= k < |lines| ==> SingleLine(lines[k])
  }

  lemma {:induction false} RosterLineSingle(ch: ChemicalRow)
    requires CleanRow(ch)
    ensures SingleLine(RosterLine(ch))
  {
    var cas, loc, crit := OrElse(ch.cas, "N/A"), OrElse(ch.location, "unassigned"), BoolText(ch.critical);
    assert SingleLine(cas) && SingleLine(loc) && SingleLine(crit);
    assert SingleLine("  ") && SingleLine(": CAS=") && SingleLine(" | storage=");
    assert SingleLine(" | loc=") && SingleLine(" | status=") && SingleLine(" | critical=");
  }

  lemma {:induction false} LinesReadBack(lines: seq<string>)
    requires |lines| > 0 && AllSingleLines(lines)
    ensures Split(Join(lines, "\n"), "\n") == lines
  {
    JoinThenSplit(lines, '\n');
  }

  lemma {:induction false} RosterLinesSingle(rows: seq<ChemicalRow>)
    requires forall k :: 0 <= k < |rows| ==> CleanRow(rows[k])
    ensures AllSingleLines(RosterLines(rows))
  {
    var lines := RosterLines(rows);
    forall k | 0 <= k < |lines| ensures SingleLine(lines[k]) {
      RosterLineSingle(rows[k]);
    }
  }

  /** Splitting the roster on newlines gives back one line per chemical, as
      long as no column value holds a newline itself. */
  lemma {:induction false} RosterReadsBack(rows: seq<ChemicalRow>)
    requires |rows| > 0
    requires forall k :: 0 <= k < |rows| ==> CleanRow(rows[k])
    ensures Split(ChemicalList(rows), "\n") == RosterLines(rows)
  {
    RosterLinesSingle(rows);
    LinesReadBack(RosterLines(rows));
  }

  /* --------------------------------------------------------- substitution */

  /** The two sequential literal passes applied to the agent kernel. */
  function Substitute(text: string, tenantName: string, roster: string): string {
    ReplaceAll(ReplaceAll(text, TenantNameToken, tenantName), ChemicalListToken, roster)
  }

  /** A text that starts with the pattern loses it to the replacement. */
  lemma {:induction false} ReplaceAtToken(p: string, b: string, r: string)
    requires |p| > 0
    ensures ReplaceAll(p + b, p, r) == r + ReplaceAll(b, p, r)
  {
    var s := p + b;
    assert s[..|p|] == p && s[|p|..] == b;
  }

  /** A text that does not start with the pattern's first character keeps
      its first character. */
  lemma {:induction false} ReplaceSkipsChar(s: string, p: string, r: string)
    requires |p| > 0 && |s| > 0 && s[0] != p[0]
    ensures ReplaceAll(s, p, r) == [s[0]] + ReplaceAll(s[1..], p, r)
  {
    if |s| >= |p| {
      assert s[..|p|][0] == s[0];
    }
  }

  lemma {:induction false} ConsRegroup(a: string, u: string, v: string)
    requires |a| > 0
    ensures [a[0]] + (a[1..] + u + v) == a + u + v
  {
    assert a == [a[0]] + a[1..];
  }

  /** A stretch free of the pattern's first character is copied as is. */
  lemma {:induction false} ReplacePlainPrefix(a: string, s: string, p: string, r: string)
    requires |p| > 0 && p[0] !in a
    ensures ReplaceAll(a + s, p, r) == a + ReplaceAll(s, p, r)
    decreases |a|
  {
    if |a| == 0 {
      assert a + s == s;
    } else {
      var t := a + s;
      ReplaceSkipsChar(t, p, r);
      assert t[1..] == a[1..] + s;
      ReplacePlainPrefix(a[1..], s, p, r);
      ConsRegroup(a, ReplaceAll(s, p, r), "");
      assert a[1..] + ReplaceAll(s, p, r) + "" == a[1..] + ReplaceAll(s, p, r);
      assert a + ReplaceAll(s, p, r) + "" == a + ReplaceAll(s, p, r);
    }
  }

  /** A plain stretch before the first token is copied, the token replaced. */
  lemma {:induction false} ReplaceAfterPlain(a: string, p: string, b: string, r: string)
    requires |p| > 0 && p[0] !in a
    ensures ReplaceAll(a + p + b, p, r) == a + r + ReplaceAll(b, p, r)
    decreases |a|
  {
    if |a| == 0 {
      assert a + p + b == p + b;
      ReplaceAtToken(p, b, r);
    } else {
      var s := a + p + b;
      ReplaceSkipsChar(s, p, r);
      assert s[1..] == a[1..] + p + b;
      ReplaceAfterPlain(a[1..], p, b, r);
      ConsRegroup(a, r, ReplaceAll(b, p, r));
    }
  }

  /* ------------------------------------------------- reference scanner */

  /** What the capture group `\S+\.ttc\.md` can match: at least one
      character before the suffix and no whitespace anywhere. */
  predicate IsRef(t: string) {
    |t| > |RefSuffix| && EndsWith(t, RefSuffix) && NoSpace(t)
  }

  /** The longest prefix of `t[..n]` that is a reference, found by giving
      characters back from the end as the regex engine backtracks. */
  function LongestRefWithin(t: string, n: nat): (r: Option<string>)
    requires n <= |t|
    requires forall i :: 0 <= i < n ==> !IsSpace(t[i])
    ensures r.Some? ==> |r.value| <= n && r.value == t[..|r.value|] && IsRef(r.value)
    ensures r.Some? ==> forall m :: |r.value| < m <= n ==> !IsRef(t[..m])
    ensures r.None? ==> forall m :: 0 <= m <= n ==> !IsRef(t[..m])
    decreases n
  {
    if n <= |RefSuffix| then
      ShortPrefixesAreNotRefs(t, n);
      None
    else if t[n - |RefSuffix|..n] == RefSuffix then
      PrefixIsRef(t, n);
      Some(t[..n])
    else
      var r := LongestRefWithin(t, n - 1);
      PrefixIsNotRef(t, n);
      NoRefsUpTo(t, if r.Some? then |r.value| else -1, n);
      r
  }

  /** Extends "no prefix in (lo, n - 1] is a reference" to n. */
  lemma {:induction false} NoRefsUpTo(t: string, lo: int, n: nat)
    requires 0 < n <= |t|
    requires forall m :: 0 <= m && lo < m <= n - 1 ==> !IsRef(t[..m])
    requires !IsRef(t[..n])
    ensures forall m :: 0 <= m && lo < m <= n ==> !IsRef(t[..m])
  {
  }

  lemma {:induction false} ShortPrefixesAreNotRefs(t: string, n: nat)
    requires n <= |t| && n <= |RefSuffix|
    ensures forall m :: 0 <= m <= n ==> !IsRef(t[..m])
  {
  }

  lemma {:induction false} PrefixIsRef(t: string, n: nat)
    requires |RefSuffix| < n <= |t|
    requires forall i :: 0 <= i < n ==> !IsSpace(t[i])
    requires t[n - |RefSuffix|..n] == RefSuffix
    ensures IsRef(t[..n])
  {
    assert t[..n][n - |RefSuffix|..] == t[n - |RefSuffix|..n];
  }

  lemma {:induction false} PrefixIsNotRef(t: string, n: nat)
    requires |RefSuffix| < n <= |t|
    requires t[n - |RefSuffix|..n] != RefSuffix
    ensures !IsRef(t[..n])
  {
    assert t[..n][n - |RefSuffix|..] == t[n - |RefSuffix|..n];
  }

  /** The group the pattern captures right after a `§tools/`: the longest
      prefix of `t` that is a reference, if there is one. */
  function MatchRef(t: string): (r: Option<string>)
    ensures r.Some? ==> IsRef(r.value) && StartsWith(t, r.value)
    ensures r.Some? ==> forall m :: |r.value| < m <= |t| ==> !IsRef(t[..m])
    ensures r.None? ==> forall m :: 0 <= m <= |t| ==> !IsRef(t[..m])
  {
    var n := RunLength(t);
    forall m | n < m <= |t| ensures !IsRef(t[..m]) {
      assert t[..m][n] == t[n];
    }
    LongestRefWithin(t, n)
  }

  /** `re.findall(r'§tools/(\S+\.ttc\.md)', s)`: matches are tried at every
      position left to right and do not overlap. */
  function Refs(s: string): seq<string>
    decreases |s|
  {
    if |s| == 0 then []
    else if StartsWith(s, RefSigil) then
      match MatchRef(s[|RefSigil|..])
      case Some(r) => [r] + Refs(s[|RefSigil| + |r|..])
      case None => Refs(s[1..])
    else Refs(s[1..])
  }

  /** Everything the scanner reports is a well-formed reference. */
  lemma {:induction false} RefsAreWellFormed(s: string)
    ensures forall k :: 0 <= k < |Refs(s)| ==> IsRef(Refs(s)[k])
    decreases |s|
  {
    if |s| > 0 {
      if StartsWith(s, RefSigil) && MatchRef(s[|RefSigil|..]).Some? {
        var r := MatchRef(s[|RefSigil|..]).value;
        RefsAreWellFormed(s[|RefSigil| + |r|..]);
      } else {
        RefsAreWellFormed(s[1..]);
      }
    }
  }

  /** Text without a `§` holds no reference. */
  lemma {:induction false} RefsWithoutSigil(s: string)
    requires '§' !in s
    ensures Refs(s) == []
    decreases |s|
  {
    if |s| > 0 {
      assert !StartsWith(s, RefSigil) by {
        if |RefSigil| <= |s| { assert s[..|RefSigil|][0] == s[0]; }
      }
      RefsWithoutSigil(s[1..]);
    }
  }

  /** A stretch without `§` in front of a text adds no references. */
  lemma {:induction false} RefsSkipPlain(a: string, b: string)
    requires '§' !in a
    ensures Refs(a + b) == Refs(b)
    decreases |a|
  {
    if |a| > 0 {
      var s := a + b;
      assert !StartsWith(s, RefSigil) by {
        if |RefSigil| <= |s| { assert s[..|RefSigil|][0] == a[0]; }
      }
      assert s[1..] == a[1..] + b;
      RefsSkipPlain(a[1..], b);
    } else {
      assert a + b == b;
    }
  }

  /** A reference closed by whitespace or the end of the text is captured
      whole: the run stops right after it and it already ends in the suffix. */
  lemma {:induction false} MatchWholeRef(r: string, rest: string)
    requires IsRef(r)
    requires rest == [] || IsSpace(rest[0])
    ensures MatchRef(r + rest) == Some(r)
  {
    var t := r + rest;
    RunLengthOfWord(r, rest);
    assert t[|r| - |RefSuffix|..|r|] == r[|r| - |RefSuffix|..];
    assert t[..|r|] == r;
  }

  /** A whole reference after the sigil, closed by whitespace or the end of
      the text, is found as written. */
  lemma {:induction false} RefsAtSigil(r: string, rest: string)
    requires IsRef(r)
    requires rest == [] || IsSpace(rest[0])
    ensures Refs(RefSigil + r + rest) == [r] + Refs(rest)
  {
    var s := RefSigil + r + rest;
    assert s[..|RefSigil|] == RefSigil;
    assert s[|RefSigil|..] == r + rest;
    MatchWholeRef(r, rest);
    assert s[|RefSigil| + |r|..] == rest;
  }

  /* ------------------------------------- the scanner against the pattern */

  /** The pattern matches at `i` with group `r`: the sigil starts there and
      the longest reference after it is `r`. */
  ghost predicate FoundAt(s: string, i: int, r: string) {
    OccursAt(s, RefSigil, i) && MatchRef(s[i + |RefSigil|..]) == Some(r)
  }

  lemma {:induction false} SigilHasNoSpace()
    ensures NoSpace(RefSigil)
  {
    assert RefSigil == ['§', 't', 'o', 'o', 'l', 's', '/'];
  }

  /** A match in a suffix of the text is a match in the text. */
  lemma {:induction false} FoundAtShift(s: string, e: nat, i: int, r: string)
    requires e <= |s| && FoundAt(s[e..], i, r)
    ensures FoundAt(s, e + i, r)
  {
    assert s[e..|s|] == s[e..];
    OccursInSlice(s, RefSigil, e, |s|, i);
    assert s[e..][i + |RefSigil|..] == s[e + i + |RefSigil|..];
  }

  /** A match past `e` is a match in the suffix from `e`. */
  lemma {:induction false} FoundAtUnshift(s: string, e: nat, i: int, r: string)
    requires e <= i && FoundAt(s, i, r)
    ensures FoundAt(s[e..], i - e, r)
  {
    assert s[e..][i - e..i - e + |RefSigil|] == s[i..i + |RefSigil|];
    assert s[e..][i - e + |RefSigil|..] == s[i + |RefSigil|..];
  }

  /** The sigil and the group of a match at the head of the text hold no
      whitespace. */
  lemma {:induction false} MatchHasNoSpace(s: string, r: string, k: int)
    requires FoundAt(s, 0, r) && 0 <= k < |RefSigil| + |r|
    ensures !IsSpace(s[k])
  {
    SigilHasNoSpace();
    if k < |RefSigil| {
      OccurrenceChar(s, RefSigil, 0, k);
    } else {
      assert s[|RefSigil|..][..|r|] == r;
      assert s[k] == r[k - |RefSigil|];
    }
  }

  /** One step of the scanner: a match at the head is reported and skipped,
      anything else moves on by one character. */
  lemma {:induction false} RefsStep(s: string)
    requires |s| > 0
    ensures forall r :: FoundAt(s, 0, r) ==> Refs(s) == [r] + Refs(s[|RefSigil| + |r|..])
    ensures (forall r :: !FoundAt(s, 0, r)) ==> Refs(s) == Refs(s[1..])
  {
    if |RefSigil| <= |s| {
      assert s[0..|RefSigil|] == s[..|RefSigil|];
    }
  }

  /** The match of the pattern at the head of the text, if any. */
  ghost function HeadMatch(t: string): Option<string> {
    if StartsWith(t, RefSigil) then MatchRef(t[|RefSigil|..]) else None
  }

  lemma {:induction false} HeadMatchFound(t: string, r: string)
    requires HeadMatch(t) == Some(r)
    ensures FoundAt(t, 0, r)
  {
    assert t[0..|RefSigil|] == t[..|RefSigil|];
  }

  lemma {:induction false} FoundHeadMatch(t: string, r: string)
    requires FoundAt(t, 0, r)
    ensures HeadMatch(t) == Some(r)
  {
    assert t[0..|RefSigil|] == t[..|RefSigil|];
  }

  /** The scanner reports the match at the head and resumes after it. */
  lemma {:induction false} RefsAtHead(t: string, r: string)
    requires HeadMatch(t) == Some(r)
    ensures |RefSigil| + |r| <= |t|
    ensures Refs(t) == [r] + Refs(t[|RefSigil| + |r|..])
  {
    var u := t[|RefSigil|..];
    assert StartsWith(t, RefSigil) && MatchRef(u) == Some(r);
    assert |r| <= |u|;
  }

  /** The same at position `k` of the text. */
  lemma {:induction false} ScanSkipsMatch(s: string, k: nat, r: string)
    requires k <= |s| && HeadMatch(s[k..]) == Some(r)
    ensures k + |RefSigil| + |r| <= |s|
    ensures Refs(s[k..]) == [r] + Refs(s[k + |RefSigil| + |r|..])
  {
    var t := s[k..];
    RefsAtHead(t, r);
    assert t[|RefSigil| + |r|..] == s[k + |RefSigil| + |r|..];
  }

  /** The scanner at `k`, finding no match there, moves on one character. */
  lemma {:induction false} ScanSkipsChar(s: string, k: nat)
    requires k < |s| && HeadMatch(s[k..]).None?
    ensures Refs(s[k..]) == Refs(s[k + 1..])
  {
    assert s[k..][1..] == s[k + 1..];
  }

  /** `MatchHasNoSpace` for a match found at `k`. */
  lemma {:induction false} MatchAtHasNoSpace(s: string, k: nat, r: string, j: nat)
    requires k <= |s| && HeadMatch(s[k..]) == Some(r) && k <= j < k + |RefSigil| + |r|
    ensures j < |s| && !IsSpace(s[j])
  {
    HeadMatchFound(s[k..], r);
    MatchHasNoSpace(s[k..], r, j - k);
    assert s[k..][j - k] == s[j];
  }

  /** Every reference reported in `s` is the group of a match in `s`. */
  ghost predicate AllMatched(s: string) {
    forall r :: r in Refs(s) ==> exists i :: FoundAt(s, i, r)
  }

  /** What holds of every reference found in a suffix holds in the text. */
  lemma {:induction false} LiftMatches(s: string, e: nat)
    requires e <= |s| && AllMatched(s[e..])
    ensures forall r :: r in Refs(s[e..]) ==> exists i :: FoundAt(s, i, r)
  {
    forall r | r in Refs(s[e..]) ensures exists i :: FoundAt(s, i, r) {
      var i :| FoundAt(s[e..], i, r);
      FoundAtShift(s, e, i, r);
    }
  }

  /** The soundness step when the text starts with a match. */
  lemma {:induction false} SoundAtHead(s: string, head: string, tail: string)
    requires |s| > 0 && FoundAt(s, 0, head)
    requires tail == s[|RefSigil| + |head|..] && AllMatched(tail)
    ensures AllMatched(s)
  {
    var e := |RefSigil| + |head|;
    FoundHeadMatch(s, head);
    ScanSkipsMatch(s, 0, head);
    assert s[0..] == s;
    LiftMatches(s, e);
    forall r | r in Refs(s) ensures exists i :: FoundAt(s, i, r) {
      if r != head {
        assert r in Refs(s[e..]);
      }
    }
  }

  /** The soundness step when no match starts at the head. */
  lemma {:induction false} SoundPastHead(s: string)
    requires |s| > 0 && (forall r :: !FoundAt(s, 0, r)) && AllMatched(s[1..])
    ensures AllMatched(s)
  {
    RefsStep(s);
    assert Refs(s) == Refs(s[1..]);
    LiftMatches(s, 1);
  }

  /** Soundness: every reference reported is the group of a match of the
      pattern somewhere in the text. */
  lemma {:induction false} RefsAreMatches(s: string)
    ensures forall r :: r in Refs(s) ==> exists i :: FoundAt(s, i, r)
    decreases |s|
  {
    if |s| > 0 {
      if head :| FoundAt(s, 0, head) {
        var tail := s[|RefSigil| + |head|..];
        RefsAreMatches(tail);
        SoundAtHead(s, head, tail);
      } else {
        RefsAreMatches(s[1..]);
        SoundPastHead(s);
      }
    }
  }

  /** No match of the pattern starts before `i`. */
  ghost predicate NoMatchBefore(s: string, i: int) {
    forall j, r :: 0 <= j < i ==> !FoundAt(s, j, r)
  }

  /** The scan from `k` up to the leftmost match at `i`: nothing is reported
      before it, then its group. */
  lemma {:induction false} LeftmostFrom(s: string, k: nat, i: nat, r: string)
    requires k <= i
    requires FoundAt(s, i, r) && NoMatchBefore(s, i)
    ensures Refs(s[k..]) == [r] + Refs(s[i + |RefSigil| + |r|..])
    decreases i - k
  {
    var t := s[k..];
    RefsStep(t);
    if k == i {
      FoundAtUnshift(s, k, i, r);
      assert t[|RefSigil| + |r|..] == s[i + |RefSigil| + |r|..];
    } else {
      forall r' ensures !FoundAt(t, 0, r') {
        if FoundAt(t, 0, r') {
          FoundAtShift(s, k, 0, r');
        }
      }
      assert t[1..] == s[k + 1..];
      LeftmostFrom(s, k + 1, i, r);
    }
  }

  /** The leftmost match comes first: `findall` reports its group, then
      carries on right after it. */
  lemma {:induction false} RefsFromLeftmost(s: string, i: nat, r: string)
    requires FoundAt(s, i, r) && NoMatchBefore(s, i)
    ensures Refs(s) == [r] + Refs(s[i + |RefSigil| + |r|..])
  {
    LeftmostFrom(s, 0, i, r);
    assert s[0..] == s;
  }

  /** The scan from a position `k` the scanner reaches, at or before a
      match at `i` that follows whitespace, reports that match. */
  lemma {:induction false} SpacedFrom(s: string, k: nat, i: nat, r: string)
    requires k <= i && FoundAt(s, i, r)
    requires i == 0 || IsSpace(s[i - 1])
    ensures r in Refs(s[k..])
    decreases i - k
  {
    if k == i {
      FoundAtUnshift(s, k, i, r);
      FoundHeadMatch(s[k..], r);
      ScanSkipsMatch(s, k, r);
    } else if HeadMatch(s[k..]).Some? {
      var e := ResumeBeforeSpace(s, k, i, HeadMatch(s[k..]).value);
      SpacedFrom(s, e, i, r);
    } else {
      ScanSkipsChar(s, k);
      SpacedFrom(s, k + 1, i, r);
    }
  }

  /** A match the scanner reports at `k` ends before whitespace at `i - 1`,
      where the scan resumes at or before `i`. */
  lemma {:induction false} ResumeBeforeSpace(s: string, k: nat, i: nat, r0: string) returns (e: nat)
    requires k < i <= |s| && IsSpace(s[i - 1])
    requires HeadMatch(s[k..]) == Some(r0)
    ensures k < e <= i
    ensures Refs(s[k..]) == [r0] + Refs(s[e..])
  {
    e := k + |RefSigil| + |r0|;
    ScanSkipsMatch(s, k, r0);
    if i - 1 < e {
      MatchAtHasNoSpace(s, k, r0, i - 1);
    }
  }

  /** Completeness: a match at the start of the text or right after
      whitespace cannot lie inside an earlier match, so its group is
      reported. */
  lemma {:induction false} RefsFindSpaced(s: string, i: nat, r: string)
    requires FoundAt(s, i, r)
    requires i == 0 || IsSpace(s[i - 1])
    ensures r in Refs(s)
  {
    SpacedFrom(s, 0, i, r);
    assert s[0..] == s;
  }

  /* ------------------------------------------------------------ composing */

  function BaseText(store: Store): string {
    Load(store, AgentKernelPath).GetOr(FallbackKernel)
  }

  function TenantName(tenant: Option<TenantRow>): string {
    if tenant.Some? then tenant.value.companyName else UnknownTenantName
  }

  function TenantSlug(tenant: Option<TenantRow>): string {
    if tenant.Some? then tenant.value.slug else UnknownTenantSlug
  }

  /** Layer 1 after variable injection; the only text scanned for references. */
  function SubstitutedBase(store: Store, tenant: Option<TenantRow>, chemicals: seq<ChemicalRow>): string {
    Substitute(BaseText(store), TenantName(tenant), ChemicalList(chemicals))
  }

  function ToolSection(ref: string, content: string): string {
    LayerRule + "<!-- Tool: " + ref + " -->\n" + content
  }

  /** The references of `order` whose fragment file exists, in that order. */
  function Loaded(order: seq<string>, store: Store): (loaded: seq<string>)
    ensures forall r :: r in loaded <==> r in order && ToolPath(r) in store
  {
    if |order| == 0 then []
    else
      var last := order[|order| - 1];
      Loaded(order[..|order| - 1], store) + (if ToolPath(last) in store then [last] else [])
  }

  /** Layer 2 when the references are visited in `order`. */
  function ToolSections(order: seq<string>, store: Store): string {
    if |order| == 0 then ""
    else
      var last := order[|order| - 1];
      ToolSections(order[..|order| - 1], store)
      + (if ToolPath(last) in store then ToolSection(last, store[ToolPath(last)]) else "")
  }

  /** The sections of the given loaded references, concatenated in order. */
  function SectionsOf(loaded: seq<string>, store: Store): string
    requires forall r :: r in loaded ==> ToolPath(r) in store
  {
    if |loaded| == 0 then ""
    else
      var last := loaded[|loaded| - 1];
      SectionsOf(loaded[..|loaded| - 1], store) + ToolSection(last, store[ToolPath(last)])
  }

  /** Layer 3: the tenant file with only `{TENANT_NAME}` replaced. */
  function TenantLayer(store: Store, tenant: Option<TenantRow>): string {
    match Load(store, TenantKernelPath(TenantSlug(tenant)))
    case None => ""
    case Some(text) => LayerRule + ReplaceAll(text, TenantNameToken, TenantName(tenant))
  }

  predicate NoDuplicates(xs: seq<string>) {
    forall i, j :: 0 <= i < j < |xs| ==> xs[i] != xs[j]
  }

  /** `order` lists each distinct element of `refs` exactly once: one of
      the orders in which Python may iterate `set(refs)`. */
  ghost predicate Enumerates(order: seq<string>, refs: seq<string>) {
    NoDuplicates(order) && forall r :: r in order <==> r in refs
  }

  lemma {:induction false} NoDuplicatesSnoc(xs: seq<string>, x: string)
    requires NoDuplicates(xs) && x !in xs
    ensures NoDuplicates(xs + [x])
  {
  }

  lemma {:induction false} ToolSectionsStep(order: seq<string>, r: string, store: Store)
    ensures ToolPath(r) in store ==>
      ToolSections(order + [r], store) == ToolSections(order, store) + ToolSection(r, store[ToolPath(r)])
    ensures ToolPath(r) !in store ==> ToolSections(order + [r], store) == ToolSections(order, store)
  {
    assert (order + [r])[..|order|] == order;
  }

  lemma {:induction false} AppendAssoc(a: string, b: string, c: string)
    ensures a + b + c == a + (b + c)
  {
  }

  /** Layer 2 of `load_agent_kernel`: the loop over `set(tool_refs)` visits
      the distinct references of `layer1` in an arbitrary order, as iterating
      a Python set does, and appends a section for each one whose fragment
      file exists; `order` records the order taken. */
  method AppendToolSections(layer1: string, store: Store)
    returns (kernel: string, order: seq<string>)
    ensures layer1 <= kernel
    ensures Enumerates(order, Refs(layer1))
    ensures kernel == layer1 + ToolSections(order, store)
  {
    kernel := layer1;
    var refs := Refs(layer1);
    var pending := set r | r in refs;
    order := [];
    while pending != {}
      invariant forall r :: r in order ==> r !in pending
      invariant forall r :: r in refs <==> r in pending || r in order
      invariant NoDuplicates(order)
      invariant kernel == layer1 + ToolSections(order, store)
      decreases |pending|
    {
      var r :| r in pending;
      ToolSectionsStep(order, r, store);
      if ToolPath(r) in store {
        var section := ToolSection(r, store[ToolPath(r)]);
        AppendAssoc(layer1, ToolSections(order, store), section);
        kernel := kernel + section;
      }
      NoDuplicatesSnoc(order, r);
      order := order + [r];
      pending := pending - {r};
    }
  }

  /** `load_agent_kernel`: substituted agent kernel, then the tool sections
      of the references found in it (and only there), then the tenant layer. */
  method ComposeKernel(store: Store, tenant: Option<TenantRow>, chemicals: seq<ChemicalRow>)
    returns (kernel: string, order: seq<string>)
    ensures SubstitutedBase(store, tenant, chemicals) <= kernel
    ensures Enumerates(order, Refs(SubstitutedBase(store, tenant, chemicals)))
    ensures kernel == SubstitutedBase(store, tenant, chemicals) + ToolSections(order, store)
                      + TenantLayer(store, tenant)
  {
    var layer1 := SubstitutedBase(store, tenant, chemicals);
    kernel, order := AppendToolSections(layer1, store);
    kernel := kernel + TenantLayer(store, tenant);
  }

  /* ----------------------------------------------------- about the layers */

  lemma {:induction false} ToolSectionsAreLoaded(order: seq<string>, store: Store)
    ensures ToolSections(order, store) == SectionsOf(Loaded(order, store), store)
    decreases |order|
  {
    if |order| > 0 {
      var init := order[..|order| - 1];
      var last := order[|order| - 1];
      ToolSectionsAreLoaded(init, store);
      var l := Loaded(order, store);
      if ToolPath(last) in store {
        assert l == Loaded(init, store) + [last];
        assert l[..|l| - 1] == Loaded(init, store);
      } else {
        assert l == Loaded(init, store) + [];
        assert Loaded(init, store) + [] == Loaded(init, store);
        assert ToolSections(order, store) == ToolSections(init, store) + "";
        assert ToolSections(init, store) + "" == ToolSections(init, store);
        assert SectionsOf(l, store) == SectionsOf(Loaded(init, store), store);
      }
    }
  }

  lemma {:induction false} LoadedKeepsDistinct(order: seq<string>, store: Store)
    requires NoDuplicates(order)
    ensures NoDuplicates(Loaded(order, store))
    decreases |order|
  {
    if |order| > 0 {
      var init := order[..|order| - 1];
      LoadedKeepsDistinct(init, store);
    }
  }

  /** Layer 2 holds exactly one section per distinct reference of layer 1
      whose fragment exists, and none for the others. */
  lemma {:induction false} LoadedRefsExactlyOnce(order: seq<string>, refs: seq<string>, store: Store)
    requires Enumerates(order, refs)
    ensures ToolSections(order, store) == SectionsOf(Loaded(order, store), store)
    ensures NoDuplicates(Loaded(order, store))
    ensures forall r :: r in Loaded(order, store) <==> r in refs && ToolPath(r) in store
  {
    ToolSectionsAreLoaded(order, store);
    LoadedKeepsDistinct(order, store);
  }

  lemma {:induction false} DistinctCounts(xs: seq<string>)
    requires NoDuplicates(xs)
    ensures forall x :: multiset(xs)[x] == (if x in xs then 1 else 0)
    decreases |xs|
  {
    if |xs| > 0 {
      var init := xs[..|xs| - 1];
      DistinctCounts(init);
      assert xs == init + [xs[|xs| - 1]];
    }
  }

  lemma {:induction false} DistinctSameMultiset(l1: seq<string>, l2: seq<string>)
    requires NoDuplicates(l1) && NoDuplicates(l2)
    requires forall x :: x in l1 <==> x in l2
    ensures multiset(l1) == multiset(l2)
  {
    DistinctCounts(l1);
    DistinctCounts(l2);
    assert forall x :: multiset(l1)[x] == multiset(l2)[x];
  }

  /** Whatever order the set is iterated in, layer 2 is made of the same
      sections: the loaded references of any two orders are permutations of
      each other. */
  lemma {:induction false} SectionOrderIsPermutation(o1: seq<string>, o2: seq<string>, refs: seq<string>, store: Store)
    requires Enumerates(o1, refs) && Enumerates(o2, refs)
    ensures multiset(Loaded(o1, store)) == multiset(Loaded(o2, store))
  {
    var l1, l2 := Loaded(o1, store), Loaded(o2, store);
    LoadedKeepsDistinct(o1, store);
    LoadedKeepsDistinct(o2, store);
    assert forall x :: x in l1 <==> x in l2;
    DistinctSameMultiset(l1, l2);
  }

  lemma {:induction false} HeadIsMember(xs: seq<string>)
    ensures |xs| > 0 ==> xs[0] in xs
  {
  }

  lemma {:induction false} SecondIsMember(xs: seq<string>)
    ensures |xs| > 1 ==> xs[1] in xs
  {
  }

  lemma {:induction false} EnumerationOfNothing(order: seq<string>)
    requires Enumerates(order, [])
    ensures order == []
  {
    HeadIsMember(order);
  }

  lemma {:induction false} FallbackHasNoBrace()
    ensures '{' !in FallbackKernel
  {
  }

  lemma {:induction false} FallbackHasNoSigil()
    ensures '§' !in FallbackKernel
  {
  }

  lemma {:induction false} FallbackIsPlain(name: string, roster: string)
    ensures Substitute(FallbackKernel, name, roster) == FallbackKernel
  {
    FallbackHasNoBrace();
    ReplaceAbsent(FallbackKernel, TenantNameToken, name);
    ReplaceAbsent(FallbackKernel, ChemicalListToken, roster);
  }

  lemma {:induction false} FallbackHasNoRefs()
    ensures Refs(FallbackKernel) == []
  {
    FallbackHasNoSigil();
    RefsWithoutSigil(FallbackKernel);
  }

  /** Without the agent kernel file layer 1 is the fallback line as is. */
  lemma {:induction false} FallbackBase(store: Store, tenant: Option<TenantRow>, chemicals: seq<ChemicalRow>)
    requires AgentKernelPath !in store
    ensures SubstitutedBase(store, tenant, chemicals) == FallbackKernel
  {
    assert BaseText(store) == FallbackKernel;
    FallbackIsPlain(TenantName(tenant), ChemicalList(chemicals));
  }

  /** Without the agent kernel file the composed kernel is the fallback line
      followed by at most the tenant layer: the fallback has no references. */
  lemma {:induction false} FallbackKernelHasNoTools(store: Store, tenant: Option<TenantRow>,
                                 chemicals: seq<ChemicalRow>, order: seq<string>)
    requires AgentKernelPath !in store
    requires Enumerates(order, Refs(SubstitutedBase(store, tenant, chemicals)))
    ensures order == []
    ensures SubstitutedBase(store, tenant, chemicals) + ToolSections(order, store)
            + TenantLayer(store, tenant) == FallbackKernel + TenantLayer(store, tenant)
  {
    FallbackBase(store, tenant, chemicals);
    FallbackHasNoRefs();
    EnumerationOfNothing(order);
    assert ToolSections(order, store) == "";
  }

  lemma {:induction false} EnumerationOfOne(order: seq<string>, r: string)
    requires Enumerates(order, [r])
    ensures order == [r]
  {
    assert r in order;
    HeadIsMember(order);
    SecondIsMember(order);
  }

  /** One `{TENANT_NAME}` in a text otherwise free of `{`. */
  lemma {:induction false} SubstituteOneName(a: string, b: string, name: string, roster: string)
    requires '{' !in a && '{' !in b && '{' !in name
    ensures Substitute(a + TenantNameToken + b, name, roster) == a + name + b
  {
    ReplaceAfterPlain(a, TenantNameToken, b, name);
    ReplaceAbsent(b, TenantNameToken, name);
    assert '{' !in a + name + b;
    ReplaceAbsent(a + name + b, ChemicalListToken, roster);
  }

  /** Plain text followed by one reference at the very end. */
  lemma {:induction false} RefsOfTrailingRef(a: string, b: string, r: string)
    requires '§' !in a && '§' !in b && IsRef(r)
    ensures Refs(a + (b + (RefSigil + r))) == [r]
  {
    RefsSkipPlain(a, b + (RefSigil + r));
    RefsSkipPlain(b, RefSigil + r);
    assert RefSigil + r == RefSigil + r + "";
    RefsAtSigil(r, "");
  }

  lemma {:induction false} Regroup(x1: string, x2: string, x3: string, x4: string, x5: string)
    ensures x1 + x2 + x3 + x4 + x5 == x1 + x2 + (x3 + (x4 + x5))
  {
  }

  /** A base of the form `a + {TENANT_NAME} + b + §tools/<ref>`, one loaded
      fragment and no tenant file: the name is injected, the one reference
      gets exactly one section after the base text, and nothing follows it. */
  lemma {:induction false} SingleReferenceKernel(store: Store, tenant: Option<TenantRow>, chemicals: seq<ChemicalRow>,
                              order: seq<string>, a: string, b: string, ref: string)
    requires AgentKernelPath in store
    requires store[AgentKernelPath] == a + TenantNameToken + b + RefSigil + ref
    requires '{' !in a && '{' !in b && '{' !in ref && '{' !in TenantName(tenant)
    requires '§' !in a && '§' !in b && '§' !in TenantName(tenant)
    requires IsRef(ref) && ToolPath(ref) in store
    requires TenantKernelPath(TenantSlug(tenant)) !in store
    requires Enumerates(order, Refs(SubstitutedBase(store, tenant, chemicals)))
    ensures SubstitutedBase(store, tenant, chemicals) == a + TenantName(tenant) + b + RefSigil + ref
    ensures order == [ref]
    ensures ToolSections(order, store)
            == "\n\n---\n\n<!-- Tool: " + ref + " -->\n" + store[ToolPath(ref)]
    ensures TenantLayer(store, tenant) == ""
  {
    var tail := b + (RefSigil + ref);
    var name := TenantName(tenant);
    Regroup(a, TenantNameToken, b, RefSigil, ref);
    assert '{' !in RefSigil;
    assert '{' !in tail;
    BaseWithOneName(store, tenant, chemicals, a, tail);
    Regroup(a, name, b, RefSigil, ref);
    assert '§' !in a + name;
    RefsOfTrailingRef(a + name, b, ref);
    EnumerationOfOne(order, ref);
    OneToolSection(store, order, ref);
  }

  lemma {:induction false} BaseWithOneName(store: Store, tenant: Option<TenantRow>, chemicals: seq<ChemicalRow>,
                        a: string, tail: string)
    requires AgentKernelPath in store
    requires store[AgentKernelPath] == a + TenantNameToken + tail
    requires '{' !in a && '{' !in tail && '{' !in TenantName(tenant)
    ensures SubstitutedBase(store, tenant, chemicals) == a + TenantName(tenant) + tail
  {
    SubstituteOneName(a, tail, TenantName(tenant), ChemicalList(chemicals));
  }

  /** A text that does not start with the pattern keeps its first character. */
  lemma {:induction false} ReplaceSkipsMismatch(s: string, p: string, r: string)
    requires |p| > 1 && |s| > 1 && s[1] != p[1]
    ensures ReplaceAll(s, p, r) == [s[0]] + ReplaceAll(s[1..], p, r)
  {
    if |s| >= |p| {
      assert s[..|p|][1] == s[1];
    }
  }

  /** A token that shares only its opening character with the pattern is
      left in place, as is the plain text around it. */
  lemma {:induction false} ReplaceKeepsOtherToken(a: string, q: string, b: string, p: string, r: string)
    requires |p| > 1 && |q| > 1 && q[1] != p[1]
    requires p[0] !in a && p[0] !in q[1..] && p[0] !in b
    ensures ReplaceAll(a + q + b, p, r) == a + q + b
  {
    var s := q + b;
    assert a + q + b == a + s;
    ReplacePlainPrefix(a, s, p, r);
    ReplaceSkipsMismatch(s, p, r);
    assert s[1..] == q[1..] + b;
    ReplaceAbsent(q[1..] + b, p, r);
    assert [s[0]] + s[1..] == s;
  }

  lemma {:induction false} RosterTokenIsNotName()
    ensures ChemicalListToken[1] != TenantNameToken[1]
    ensures '{' !in ChemicalListToken[1..]
  {
  }

  /** The tenant file gets only the name injected: a `{CHEMICAL_LIST}`
      written there reaches the composed kernel unreplaced. */
  lemma {:induction false} TenantLayerKeepsRosterToken(store: Store, tenant: Option<TenantRow>,
                                                       a: string, b: string)
    requires Load(store, TenantKernelPath(TenantSlug(tenant))) == Some(a + ChemicalListToken + b)
    requires '{' !in a && '{' !in b
    ensures TenantLayer(store, tenant) == LayerRule + (a + ChemicalListToken + b)
  {
    RosterTokenIsNotName();
    ReplaceKeepsOtherToken(a, ChemicalListToken, b, TenantNameToken, TenantName(tenant));
  }

  lemma {:induction false} OneToolSection(store: Store, order: seq<string>, ref: string)
    requires ToolPath(ref) in store
    requires order == [ref]
    ensures ToolSections(order, store) == "\n\n---\n\n<!-- Tool: " + ref + " -->\n" + store[ToolPath(ref)]
  {
  }

}
