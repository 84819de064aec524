/**
 * The config blocks embedded in a tenant's kernel file: the first fenced
 * region after a `### 品牌标识` (branding) or `### 打印配置` (printer)
 * heading, read line by line as `key := value` assignments. Also the
 * separate `logo_file` lookup of the logo upload.
 */
module ConfigBlock {
  import opened Wrappers
  import opened Text
  import opened Tenancy

  const BrandingMarker := "### 品牌标识"
  const PrinterMarker := "### 打印配置"
  const Fence := "```"
  const Assign := ":="

  /* ------------------------------------------------------ fenced region */

  /** A match of `marker.*?```(.*?)```` (DOTALL): the marker at `m`, an
      opening fence at `p` after it and a closing fence at `q` after that. */
  ghost predicate BlockAt(doc: string, marker: string, m: int, p: int, q: int) {
    OccursAt(doc, marker, m) && m + |marker| <= p && OccursAt(doc, Fence, p)
    && p + |Fence| <= q && OccursAt(doc, Fence, q)
  }

  /** The match `re.search` reports: the leftmost marker, the first fence
      after it (the lazy `.*?`) and the first fence after that (the lazy
      group). */
  ghost predicate FirstBlockAt(doc: string, marker: string, m: int, p: int, q: int) {
    && BlockAt(doc, marker, m, p, q)
    && NoneBetween(doc, marker, 0, m)
    && NoneBetween(doc, Fence, m + |marker|, p)
    && NoneBetween(doc, Fence, p + |Fence|, q)
  }

  /** The captured group: after the first marker, the text between the
      first fence and the next one. */
  function FencedBlock(doc: string, marker: string): Option<string> {
    match FindFrom(doc, marker, 0)
    case None => None
    case Some(m) => BlockAfter(doc, m + |marker|)
  }

  /** From `from` on: the text between the next fence and the one after. */
  function BlockAfter(doc: string, from: nat): Option<string> {
    match FindFrom(doc, Fence, from)
    case None => None
    case Some(p) => BlockBody(doc, p + |Fence|)
  }

  /** From `start` on: the text up to the next fence. */
  function BlockBody(doc: string, start: nat): Option<string> {
    match FindFrom(doc, Fence, start)
    case None => None
    case Some(q) => Some(doc[start..q])
  }

  /** The positions of the three searches behind a found block. */
  lemma {:induction false} FencedBlockParts(doc: string, marker: string) returns (m: nat, p: nat, q: nat)
    requires FencedBlock(doc, marker).Some?
    ensures FindFrom(doc, marker, 0) == Some(m)
    ensures FindFrom(doc, Fence, m + |marker|) == Some(p)
    ensures FindFrom(doc, Fence, p + |Fence|) == Some(q)
    ensures p + |Fence| <= q <= |doc| && FencedBlock(doc, marker).value == doc[p + |Fence|..q]
    ensures BlockAt(doc, marker, m, p, q)
  {
    m := FindFrom(doc, marker, 0).value;
    FoundOccurs(doc, marker, 0, m);
    assert BlockAfter(doc, m + |marker|) == FencedBlock(doc, marker);
    p := FindFrom(doc, Fence, m + |marker|).value;
    FoundOccurs(doc, Fence, m + |marker|, p);
    assert BlockBody(doc, p + |Fence|) == FencedBlock(doc, marker);
    q := FindFrom(doc, Fence, p + |Fence|).value;
    FoundOccurs(doc, Fence, p + |Fence|, q);
  }

  lemma {:induction false} BlockBodyOf(doc: string, start: nat, q: nat)
    requires FindFrom(doc, Fence, start) == Some(q)
    ensures BlockBody(doc, start) == Some(doc[start..q])
  {
  }

  lemma {:induction false} BlockAfterOf(doc: string, from: nat, p: nat, block: string)
    requires FindFrom(doc, Fence, from) == Some(p)
    requires BlockBody(doc, p + |Fence|) == Some(block)
    ensures BlockAfter(doc, from) == Some(block)
  {
  }

  lemma {:induction false} FencedBlockAfter(doc: string, marker: string, m: nat, block: string)
    requires FindFrom(doc, marker, 0) == Some(m)
    requires BlockAfter(doc, m + |marker|) == Some(block)
    ensures FencedBlock(doc, marker) == Some(block)
  {
  }

  /** The block the three searches delimit. */
  lemma {:induction false} FencedBlockOf(doc: string, marker: string, m: nat, p: nat, q: nat)
    requires FindFrom(doc, marker, 0) == Some(m)
    requires FindFrom(doc, Fence, m + |marker|) == Some(p)
    requires FindFrom(doc, Fence, p + |Fence|) == Some(q)
    ensures FencedBlock(doc, marker) == Some(doc[p + |Fence|..q])
  {
    BlockBodyOf(doc, p + |Fence|, q);
    BlockAfterOf(doc, m + |marker|, p, doc[p + |Fence|..q]);
    FencedBlockAfter(doc, marker, m, doc[p + |Fence|..q]);
  }

  /** Any match of the pattern makes the scanner find a block. */
  lemma {:induction false} FencedBlockFindsMatch(doc: string, marker: string, m': int, p': int, q': int)
    requires BlockAt(doc, marker, m', p', q')
    ensures FencedBlock(doc, marker).Some?
  {
    OccurrenceFound(doc, marker, 0, m');
    var m := FindFrom(doc, marker, 0).value;
    OccurrenceFound(doc, Fence, m + |marker|, p');
    var p := FindFrom(doc, Fence, m + |marker|).value;
    OccurrenceFound(doc, Fence, p + |Fence|, q');
    var q := FindFrom(doc, Fence, p + |Fence|).value;
    FencedBlockOf(doc, marker, m, p, q);
  }

  /** A block the scanner finds is the group of the leftmost match, with
      the lazy quantifiers stopping at the first fences. */
  lemma {:induction false} FencedBlockIsMatch(doc: string, marker: string)
    requires FencedBlock(doc, marker).Some?
    ensures exists m, p, q :: FirstBlockAt(doc, marker, m, p, q)
                              && 0 <= p + |Fence| <= q <= |doc|
                              && FencedBlock(doc, marker).value == doc[p + |Fence|..q]
  {
    var m, p, q := FencedBlockParts(doc, marker);
    FoundPartsAreFirst(doc, marker, m, p, q);
  }

  /** Positions the three searches return delimit the leftmost match. */
  lemma {:induction false} FoundPartsAreFirst(doc: string, marker: string, m: nat, p: nat, q: nat)
    requires BlockAt(doc, marker, m, p, q)
    requires FindFrom(doc, marker, 0) == Some(m)
    requires FindFrom(doc, Fence, m + |marker|) == Some(p)
    requires FindFrom(doc, Fence, p + |Fence|) == Some(q)
    ensures FirstBlockAt(doc, marker, m, p, q)
  {
    assert NoneBetween(doc, marker, 0, m) by { FoundIsFirst(doc, marker, 0, m); }
    assert NoneBetween(doc, Fence, m + |marker|, p) by { FoundIsFirst(doc, Fence, m + |marker|, p); }
    assert NoneBetween(doc, Fence, p + |Fence|, q) by { FoundIsFirst(doc, Fence, p + |Fence|, q); }
  }

  /** The leftmost match is the block the scanner finds. */
  lemma {:induction false} FirstBlockIsFound(doc: string, marker: string, m: nat, p: nat, q: nat)
    requires FirstBlockAt(doc, marker, m, p, q)
    ensures FencedBlock(doc, marker) == Some(doc[p + |Fence|..q])
  {
    assert FindFrom(doc, marker, 0) == Some(m) by { FindFromAt(doc, marker, 0, m); }
    assert FindFrom(doc, Fence, m + |marker|) == Some(p) by { FindFromAt(doc, Fence, m + |marker|, p); }
    assert FindFrom(doc, Fence, p + |Fence|) == Some(q) by { FindFromAt(doc, Fence, p + |Fence|, q); }
    FencedBlockOf(doc, marker, m, p, q);
  }

  /** The block holds no fence: the lazy group stops at the first closing
      fence. */
  lemma {:induction false} FencedBlockHasNoFence(doc: string, marker: string)
    requires FencedBlock(doc, marker).Some?
    ensures forall j :: !OccursAt(FencedBlock(doc, marker).value, Fence, j)
  {
    var m, p, q := FencedBlockParts(doc, marker);
    NoFenceBeforeNext(doc, p + |Fence|, q);
  }

  lemma {:induction false} NoFenceBeforeNext(doc: string, start: nat, q: nat)
    requires FindFrom(doc, Fence, start) == Some(q)
    ensures forall j :: !OccursAt(doc[start..q], Fence, j)
  {
    FindFromSpec(doc, Fence, start);
    var block := doc[start..q];
    forall j | OccursAt(block, Fence, j) ensures false {
      OccursInSlice(doc, Fence, start, q, j);
    }
  }

  /* ------------------------------------------------------------ entries */

  datatype Entry = Entry(key: string, value: string)

  /** One line of a block: kept only if it holds `:=`, split at the first
      one, key stripped, value stripped and then rid of its quotes. */
  function ParseLine(line: string): Option<Entry>
  {
    var l := Strip(line);
    match FindFrom(l, Assign, 0)
    case None => None
    case Some(i) =>
      Some(Entry(Strip(l[..i]), StripQuotes(Strip(l[i + |Assign|..]))))
  }

  /** A piece of `s` lying before the first occurrence of `p` holds no `p`. */
  lemma {:induction false} PieceBeforeFirst(s: string, p: string, i: nat, a: nat, b: nat)
    requires |p| > 0 && a <= b <= i <= |s|
    requires forall j :: 0 <= j < i ==> !OccursAt(s, p, j)
    ensures forall j :: !OccursAt(s[a..b], p, j)
  {
    forall j | OccursAt(s[a..b], p, j) ensures false {
      OccursInSlice(s, p, a, b, j);
    }
  }

  /** The stripped text before index `i` is a piece of `l` ending by `i`. */
  lemma {:induction false} StrippedIsPiece(l: string, i: nat) returns (off: nat)
    requires i <= |l|
    ensures off + |Strip(l[..i])| <= i
    ensures Strip(l[..i]) == l[off..off + |Strip(l[..i])|]
  {
    var raw := l[..i];
    var t := TrimStart(raw, IsSpace);
    var key := TrimEnd(t, IsSpace);
    TrimStartSpec(raw, IsSpace);
    TrimEndSpec(t, IsSpace);
    off := |raw| - |t|;
    assert t == l[off..i];
    assert key == t[..|key|];
  }

  lemma {:induction false} PieceBeforeAssign(l: string, i: nat, off: nat, key: string)
    requires FindFrom(l, Assign, 0) == Some(i)
    requires off + |key| <= i && key == l[off..off + |key|]
    ensures forall j :: !OccursAt(key, Assign, j)
  {
    FindFromSpec(l, Assign, 0);
    PieceBeforeFirst(l, Assign, i, off, off + |key|);
  }

  /** A parsed entry: its key holds no `:=` (the line is split at its first
      one) and has no whitespace at either end, and its value has no quote
      at either end. */
  lemma {:induction false} ParsedEntryShape(line: string)
    requires ParseLine(line).Some?
    ensures forall j :: !OccursAt(ParseLine(line).value.key, Assign, j)
    ensures var key := ParseLine(line).value.key;
            key == [] || (!IsSpace(key[0]) && !IsSpace(key[|key| - 1]))
    ensures var val := ParseLine(line).value.value;
            val == [] || (!IsQuote(val[0]) && !IsQuote(val[|val| - 1]))
  {
    var l := Strip(line);
    var i := FindFrom(l, Assign, 0).value;
    var off := StrippedIsPiece(l, i);
    PieceBeforeAssign(l, i, off, Strip(l[..i]));
    StripEnds(l[..i]);
    StripQuotesEnds(Strip(l[i + |Assign|..]));
  }

  function ParseLines(lines: seq<string>): (entries: seq<Entry>)
    ensures |entries| <= |lines|
  {
    if |lines| == 0 then []
    else
      match ParseLine(lines[0])
      case None => ParseLines(lines[1..])
      case Some(e) => [e] + ParseLines(lines[1..])
  }

  /** All assignments of the block under `marker`, in order; none when the
      marker or its fenced region is missing. */
  function ConfigEntries(doc: string, marker: string): seq<Entry> {
    match FencedBlock(doc, marker)
    case None => []
    case Some(block) => ParseLines(Split(Strip(block), "\n"))
  }

  /** The entries of the tenant file's block, none when the file is absent. */
  function TenantEntries(store: Store, slug: string, marker: string): seq<Entry> {
    match Load(store, TenantKernelPath(slug))
    case None => []
    case Some(doc) => ConfigEntries(doc, marker)
  }

  /* ------------------------------------------- writing a block, reading it */

  /** An entry that reads back from the line `key := "value"`: a key that
      is non-empty, already stripped and holds no `:=`, and a value with no
      quote at either end. */
  ghost predicate LineWritable(e: Entry) {
    && |e.key| > 0 && !IsSpace(e.key[0]) && !IsSpace(e.key[|e.key| - 1])
    && (forall j :: !OccursAt(e.key, Assign, j))
    && (e.value == [] || (!IsQuote(e.value[0]) && !IsQuote(e.value[|e.value| - 1])))
  }

  /** An entry that also survives inside a block: no newline, which would
      split the line, and no backtick, which could close the fence. */
  ghost predicate Writable(e: Entry) {
    LineWritable(e) && '\n' !in e.key && '\n' !in e.value && '`' !in e.key && '`' !in e.value
  }

  function RenderLine(e: Entry): string {
    e.key + " := \"" + e.value + "\""
  }

  function RenderLines(entries: seq<Entry>): (lines: seq<string>)
    ensures |lines| == |entries|
    ensures forall k :: 0 <= k < |entries| ==> lines[k] == RenderLine(entries[k])
  {
    if |entries| == 0 then [] else [RenderLine(entries[0])] + RenderLines(entries[1..])
  }

  /** A document holding one block written from `entries`. */
  function RenderDocument(pre: string, marker: string, entries: seq<Entry>, post: string): string {
    BlockDocument(pre, marker, Join(RenderLines(entries), "\n"), post)
  }

  /** A document holding `body` in a fenced block under `marker`. */
  function BlockDocument(pre: string, marker: string, body: string, post: string): string {
    (pre + marker + "\n" + Fence) + ("\n" + body + "\n") + (Fence + post)
  }

  /** The first `:=` of a written line is the one after the key. */
  lemma {:induction false} RenderedAssign(e: Entry)
    requires LineWritable(e)
    ensures FindFrom(RenderLine(e), Assign, 0) == Some(|e.key| + 1)
  {
    var k := e.key;
    var line := RenderLine(e);
    var rest := " := \"" + e.value + "\"";
    assert line == k + rest;
    assert line[|k| + 1..|k| + 3] == Assign;
    forall j | 0 <= j < |k| + 1 ensures !OccursAt(line, Assign, j) {
      if OccursAt(line, Assign, j) {
        if j + |Assign| <= |k| {
          OccursInFront(k, rest, Assign, j);
        } else if j == |k| - 1 {
          OccurrenceChar(line, Assign, j, 1);
        } else {
          OccurrenceChar(line, Assign, j, 0);
        }
      }
    }
    FindFromAt(line, Assign, 0, |k| + 1);
  }

  lemma {:induction false} RenderedKey(e: Entry)
    requires LineWritable(e)
    ensures Strip(RenderLine(e)[..|e.key| + 1]) == e.key
  {
    assert RenderLine(e)[..|e.key| + 1] == "" + e.key + " ";
    TrimBothPast("", e.key, " ", IsSpace);
  }

  lemma {:induction false} RenderedValue(e: Entry)
    requires LineWritable(e)
    ensures StripQuotes(Strip(RenderLine(e)[|e.key| + 3..])) == e.value
  {
    var quoted := "\"" + e.value + "\"";
    assert RenderLine(e)[|e.key| + 3..] == " " + quoted + "";
    TrimBothPast(" ", quoted, "", IsSpace);
    TrimBothPast("\"", e.value, "\"", IsQuote);
  }

  /** Reading a written line gives the entry back. */
  lemma {:induction false} ParseRenderLine(e: Entry)
    requires LineWritable(e)
    ensures ParseLine(RenderLine(e)) == Some(e)
  {
    var line := RenderLine(e);
    assert line[0] == e.key[0];
    StripKeeps(line);
    RenderedAssign(e);
    RenderedKey(e);
    RenderedValue(e);
  }

  lemma {:induction false} ParseRenderLines(entries: seq<Entry>)
    requires forall k :: 0 <= k < |entries| ==> Writable(entries[k])
    ensures ParseLines(RenderLines(entries)) == entries
    decreases |entries|
  {
    if |entries| > 0 {
      ParseRenderLine(entries[0]);
      ParseRenderLines(entries[1..]);
      assert RenderLines(entries)[1..] == RenderLines(entries[1..]);
    }
  }

  lemma {:induction false} RenderLineAvoids(e: Entry, x: char)
    requires x != ' ' && x != ':' && x != '=' && x != '"'
    requires x !in e.key && x !in e.value
    ensures x !in RenderLine(e)
  {
  }

  lemma {:induction false} RenderedLinesSingle(entries: seq<Entry>)
    requires forall k :: 0 <= k < |entries| ==> Writable(entries[k])
    ensures forall k :: 0 <= k < |entries| ==> '\n' !in RenderLines(entries)[k] && '`' !in RenderLines(entries)[k]
  {
    forall k | 0 <= k < |entries|
      ensures '\n' !in RenderLines(entries)[k] && '`' !in RenderLines(entries)[k]
    {
      RenderLineAvoids(entries[k], '\n');
      RenderLineAvoids(entries[k], '`');
    }
  }

  /** The body of a written block: no backtick, and its ends are not
      whitespace (a key starts it, a quote ends it). */
  lemma {:induction false} RenderedBody(entries: seq<Entry>)
    requires forall k :: 0 <= k < |entries| ==> Writable(entries[k])
    ensures '`' !in Join(RenderLines(entries), "\n")
    ensures var body := Join(RenderLines(entries), "\n");
            body == [] || (!IsSpace(body[0]) && !IsSpace(body[|body| - 1]))
    ensures |entries| == 0 ==> Join(RenderLines(entries), "\n") == []
  {
    RenderedLinesSingle(entries);
    JoinAvoids(RenderLines(entries), "\n", '`');
    if |entries| > 0 {
      JoinFirst(RenderLines(entries), "\n");
      JoinLast(RenderLines(entries), "\n");
      var first, last := RenderLines(entries)[0], RenderLines(entries)[|entries| - 1];
      assert first[0] == entries[0].key[0];
      assert last[|last| - 1] == '"';
    }
  }

  lemma {:induction false} JoinFirst(parts: seq<string>, sep: string)
    requires |parts| > 0 && |parts[0]| > 0
    ensures |Join(parts, sep)| > 0 && Join(parts, sep)[0] == parts[0][0]
  {
  }

  lemma {:induction false} JoinLast(parts: seq<string>, sep: string)
    requires |parts| > 0 && |parts[|parts| - 1]| > 0
    ensures var j := Join(parts, sep);
            |j| > 0 && j[|j| - 1] == parts[|parts| - 1][|parts[|parts| - 1]| - 1]
    decreases |parts|
  {
    if |parts| > 1 {
      JoinLast(parts[1..], sep);
    }
  }

  /** The written marker comes first: no occurrence of it starts in the
      text before it. */
  predicate MarkerFirstAfter(pre: string, marker: string) {
    NoneBetween(pre + marker, marker, 0, |pre|)
  }

  /** The next fence is the first one at or after `from` when no backtick
      comes before it. */
  lemma {:induction false} FenceAfterPlain(doc: string, from: nat, q: nat)
    requires from <= q && OccursAt(doc, Fence, q)
    requires forall j :: from <= j < q ==> doc[j] != '`'
    ensures FindFrom(doc, Fence, from) == Some(q)
  {
    forall j | from <= j < q ensures !OccursAt(doc, Fence, j) {
      if OccursAt(doc, Fence, j) {
        OccurrenceChar(doc, Fence, j, 0);
      }
    }
    FindFromAt(doc, Fence, from, q);
  }

  /** The three searches in a document with one fenced block. */
  lemma {:induction false} BlockDocumentMarker(pre: string, marker: string, body: string, post: string)
    requires MarkerFirstAfter(pre, marker)
    ensures FindFrom(BlockDocument(pre, marker, body, post), marker, 0) == Some(|pre|)
  {
    var front := pre + marker;
    assert BlockDocument(pre, marker, body, post)
           == front + ("\n" + Fence + ("\n" + body + "\n") + (Fence + post));
    assert front[|pre|..|pre| + |marker|] == marker;
    FindInFront(front, "\n" + Fence + ("\n" + body + "\n") + (Fence + post), marker, |pre|);
  }

  lemma {:induction false} BlockDocumentOpening(pre: string, marker: string, body: string, post: string)
    ensures FindFrom(BlockDocument(pre, marker, body, post), Fence, |pre| + |marker|)
            == Some(|pre| + |marker| + 1)
  {
    var doc := BlockDocument(pre, marker, body, post);
    var a := pre + marker;
    assert doc[|a| + 1..|a| + 1 + |Fence|] == Fence;
    FenceAfterPlain(doc, |a|, |a| + 1);
  }

  lemma {:induction false} BlockDocumentClosing(pre: string, marker: string, body: string, post: string,
                                                doc: string, p: nat, q: nat)
    requires '`' !in body
    requires doc == BlockDocument(pre, marker, body, post)
    requires p == |pre| + |marker| + 1 && q == p + |Fence| + |body| + 2
    ensures FindFrom(doc, Fence, p + |Fence|) == Some(q)
    ensures doc[p + |Fence|..q] == "\n" + body + "\n"
  {
    var b := pre + marker + "\n" + Fence;
    var inner := "\n" + body + "\n";
    assert doc[|b|..|b| + |inner|] == inner;
    assert doc[|b| + |inner|..|b| + |inner| + |Fence|] == Fence;
    assert |b| == p + |Fence| && |b| + |inner| == q;
    FenceAfterPlain(doc, p + |Fence|, q);
  }

  /** Where the scanner lands in a document with one fenced block. */
  lemma {:induction false} LocateBlock(pre: string, marker: string, body: string, post: string)
    requires MarkerFirstAfter(pre, marker) && '`' !in body
    ensures FencedBlock(BlockDocument(pre, marker, body, post), marker) == Some("\n" + body + "\n")
  {
    var doc := BlockDocument(pre, marker, body, post);
    var p := |pre| + |marker| + 1;
    var q := p + |Fence| + |body| + 2;
    BlockDocumentMarker(pre, marker, body, post);
    BlockDocumentOpening(pre, marker, body, post);
    BlockDocumentClosing(pre, marker, body, post, doc, p, q);
    FencedBlockOf(doc, marker, |pre|, p, q);
  }

  /** Extraction round trip: a block written from well-formed entries reads
      back as exactly those entries, in order. */
  lemma {:induction false} ConfigRoundTrip(pre: string, marker: string, entries: seq<Entry>, post: string)
    requires MarkerFirstAfter(pre, marker)
    requires forall k :: 0 <= k < |entries| ==> Writable(entries[k])
    ensures ConfigEntries(RenderDocument(pre, marker, entries, post), marker) == entries
  {
    var lines := RenderLines(entries);
    RenderedBody(entries);
    LocateBlock(pre, marker, Join(lines, "\n"), post);
    var body := Join(lines, "\n");
    TrimBothPast("\n", body, "\n", IsSpace);
    assert Strip("\n" + body + "\n") == body;
    if |entries| == 0 {
      assert Split(body, "\n") == [""];
      assert FindFrom("", Assign, 0) == None;
    } else {
      RenderedLinesSingle(entries);
      assert "\n" == ['\n'];
      JoinThenSplit(lines, '\n');
      ParseRenderLines(entries);
    }
  }

  /* ------------------------------------------------------ printer config */

  /** The value the last entry with `key` carries: the one a later
      assignment leaves standing. */
  function LastValue(entries: seq<Entry>, key: string): Option<string> {
    if |entries| == 0 then None
    else
      match LastValue(entries[1..], key)
      case Some(v) => Some(v)
      case None => if entries[0].key == key then Some(entries[0].value) else None
  }

  /** The loop `config[key] = val` over the entries, starting from `acc`. */
  function Assignments(entries: seq<Entry>, acc: map<string, string>): (m: map<string, string>)
    ensures forall k :: k in m <==> k in acc || LastValue(entries, k).Some?
    ensures forall k :: k in m ==> m[k] == if LastValue(entries, k).Some? then LastValue(entries, k).value else acc[k]
    decreases |entries|
  {
    if |entries| == 0 then acc
    else Assignments(entries[1..], acc[entries[0].key := entries[0].value])
  }

  /** `get_tenant_printer_config`: every key of the printer block, the last
      assignment of a key winning; empty for an unknown tenant, a missing
      file, or a file without the block. */
  function PrinterConfig(tenant: Option<TenantRow>, store: Store): (config: map<string, string>)
    ensures tenant.None? ==> config == map[]
    ensures tenant.Some? ==>
      var entries := TenantEntries(store, tenant.value.slug, PrinterMarker);
      && (forall k :: k in config <==> LastValue(entries, k).Some?)
      && (forall k :: k in config ==> config[k] == LastValue(entries, k).value)
  {
    if tenant.None? then map[]
    else Assignments(TenantEntries(store, tenant.value.slug, PrinterMarker), map[])
  }

  /** A tenant file holding a written block yields that block's entries. */
  lemma {:induction false} TenantEntriesOfDocument(store: Store, slug: string, marker: string,
                                pre: string, entries: seq<Entry>, post: string)
    requires MarkerFirstAfter(pre, marker)
    requires forall k :: 0 <= k < |entries| ==> Writable(entries[k])
    requires TenantKernelPath(slug) in store
    requires store[TenantKernelPath(slug)] == RenderDocument(pre, marker, entries, post)
    ensures TenantEntries(store, slug, marker) == entries
  {
    ConfigRoundTrip(pre, marker, entries, post);
  }

  /** A written printer block reads back as the map of its entries, later
      duplicates overriding earlier ones. */
  lemma {:induction false} PrinterConfigRoundTrip(tenant: TenantRow, store: Store, pre: string, entries: seq<Entry>, post: string)
    requires MarkerFirstAfter(pre, PrinterMarker)
    requires forall k :: 0 <= k < |entries| ==> Writable(entries[k])
    requires TenantKernelPath(tenant.slug) in store
    requires store[TenantKernelPath(tenant.slug)] == RenderDocument(pre, PrinterMarker, entries, post)
    ensures forall k :: k in PrinterConfig(Some(tenant), store) <==> LastValue(entries, k).Some?
    ensures forall k :: k in PrinterConfig(Some(tenant), store) ==>
              PrinterConfig(Some(tenant), store)[k] == LastValue(entries, k).value
  {
    TenantEntriesOfDocument(store, tenant.slug, PrinterMarker, pre, entries, post);
  }

  /** The `a := "1"` then `a := "2"` case: the later value wins. */
  lemma {:induction false} LaterAssignmentWins(entries: seq<Entry>, key: string, v1: string, v2: string)
    ensures LastValue(entries + [Entry(key, v1), Entry(key, v2)], key) == Some(v2)
  {
    var back := [Entry(key, v1), Entry(key, v2)];
    assert back[1..] == [Entry(key, v2)];
    assert [Entry(key, v2)][1..] == [];
    assert LastValue([Entry(key, v2)], key) == Some(v2);
    LastValueOfSuffix(entries, back, key);
  }

  lemma {:induction false} LastValueOfSuffix(front: seq<Entry>, back: seq<Entry>, key: string)
    requires LastValue(back, key).Some?
    ensures LastValue(front + back, key) == LastValue(back, key)
    decreases |front|
  {
    if |front| > 0 {
      assert (front + back)[1..] == front[1..] + back;
      LastValueOfSuffix(front[1..], back, key);
    } else {
      assert front + back == back;
    }
  }

  /* ------------------------------------------------------------ branding */

  datatype Branding =
    | NameOnly(companyName: string, slug: string)
    | Branded(companyName: string, slug: string, logoPath: Option<string>,
              primaryColor: string, accentColor: string, font: string,
              addressLines: seq<string>, phone: string, web: string, reportFooter: string)

  function DefaultBranding(tenant: TenantRow): Branding {
    Branded(tenant.companyName, tenant.slug, None, "#003366", "#CC0000", "Helvetica",
            [], "", "", "Confidential — " + tenant.companyName)
  }

  const UploadsRoot := "/app/uploads/tenants/"

  /** `str(Path(f"/app/uploads/tenants/{slug}/{val}"))`: the f-string,
      normalised as `pathlib` does. */
  function LogoPath(slug: string, file: string): string {
    PurePath(UploadsRoot + slug + "/" + file)
  }

  lemma {:induction false} UploadDirSegments(slug: string)
    ensures UploadsRoot + slug == "/" + Join(["app", "uploads", "tenants", slug], "/")
  {
    JoinFront("tenants", [slug], "/");
    JoinFront("uploads", ["tenants", slug], "/");
    JoinFront("app", ["uploads", "tenants", slug], "/");
    assert ["app"] + ["uploads", "tenants", slug] == ["app", "uploads", "tenants", slug];
  }

  lemma {:induction false} UploadFileSegments(slug: string, file: string)
    ensures UploadsRoot + slug + "/" + file
            == "/" + Join(["app", "uploads", "tenants", slug, file], "/")
  {
    JoinFront("tenants", [slug, file], "/");
    JoinFront("uploads", ["tenants", slug, file], "/");
    JoinFront("app", ["uploads", "tenants", slug, file], "/");
    assert ["app"] + ["uploads", "tenants", slug, file] == ["app", "uploads", "tenants", slug, file];
  }

  /** An ordinary slug and file name give the path as the f-string spells
      it. */
  lemma {:induction false} LogoPathOfPlainName(slug: string, file: string)
    requires PlainSegment(slug) && PlainSegment(file)
    ensures LogoPath(slug, file) == UploadsRoot + slug + "/" + file
  {
    UploadFileSegments(slug, file);
    PlainPathUnchanged(["app", "uploads", "tenants", slug, file]);
  }

  /** `logo_file :=` with an empty value names the tenant's upload
      directory itself: the trailing slash of the f-string is dropped. */
  lemma {:induction false} LogoPathOfEmptyName(slug: string)
    requires PlainSegment(slug)
    ensures LogoPath(slug, "") == UploadsRoot + slug
  {
    var dir := UploadsRoot + slug;
    assert dir + "/" + "" == dir + "/";
    TrailingSlashDropped(dir);
    UploadDirIsNormal(slug);
  }

  lemma {:induction false} UploadDirIsNormal(slug: string)
    requires PlainSegment(slug)
    ensures PurePath(UploadsRoot + slug) == UploadsRoot + slug
  {
    UploadDirSegments(slug);
    PlainPathUnchanged(["app", "uploads", "tenants", slug]);
  }

  predicate IsAddressKey(key: string) {
    key == "line1" || key == "line2" || key == "line3"
  }

  predicate IsBrandingKey(key: string) {
    key in {"logo_file", "primary_color", "accent_color", "font", "report_footer", "phone", "web"}
    || IsAddressKey(key)
  }

  /** One pass of the branding loop; `existing` holds the paths that exist. */
  function ApplyBrandingEntry(b: Branding, e: Entry, existing: set<string>): (b': Branding)
    requires b.Branded?
    ensures b'.Branded? && b'.companyName == b.companyName && b'.slug == b.slug
  {
    var key, val := e.key, e.value;
    if key == "logo_file" then
      (if LogoPath(b.slug, val) in existing then b.(logoPath := Some(LogoPath(b.slug, val))) else b)
    else if key == "primary_color" then b.(primaryColor := val)
    else if key == "accent_color" then b.(accentColor := val)
    else if key == "font" then b.(font := val)
    else if key == "report_footer" then b.(reportFooter := val)
    else if key == "phone" then b.(phone := val)
    else if key == "web" then b.(web := val)
    else if IsAddressKey(key) then b.(addressLines := b.addressLines + [val])
    else b
  }

  function ApplyBranding(b: Branding, entries: seq<Entry>, existing: set<string>): (b': Branding)
    requires b.Branded?
    ensures b'.Branded? && b'.companyName == b.companyName && b'.slug == b.slug
    decreases |entries|
  {
    if |entries| == 0 then b
    else ApplyBranding(ApplyBrandingEntry(b, entries[0], existing), entries[1..], existing)
  }

  /** `load_tenant_branding`. */
  function TenantBranding(tenant: Option<TenantRow>, store: Store, existing: set<string>): (b: Branding)
    ensures tenant.None? ==> b == NameOnly("Unknown", "unknown")
    ensures tenant.Some? ==> b.Branded? && b.companyName == tenant.value.companyName
                             && b.slug == tenant.value.slug
  {
    match tenant
    case None => NameOnly("Unknown", "unknown")
    case Some(t) => ApplyBranding(DefaultBranding(t), TenantEntries(store, t.slug, BrandingMarker), existing)
  }

  /** The address values, in the order they appear. */
  function AddressValues(entries: seq<Entry>): seq<string> {
    if |entries| == 0 then []
    else (if IsAddressKey(entries[0].key) then [entries[0].value] else []) + AddressValues(entries[1..])
  }

  /** The last `logo_file` value whose file exists, as a path. */
  function LastExistingLogo(entries: seq<Entry>, slug: string, existing: set<string>): Option<string> {
    if |entries| == 0 then None
    else
      match LastExistingLogo(entries[1..], slug, existing)
      case Some(p) => Some(p)
      case None =>
        if entries[0].key == "logo_file" && LogoPath(slug, entries[0].value) in existing
        then Some(LogoPath(slug, entries[0].value)) else None
  }

  /** What the branding loop leaves in a plain field: the last assignment
      of the field's key, or the starting value. */
  lemma {:induction false} BrandingColors(b: Branding, entries: seq<Entry>, existing: set<string>)
    requires b.Branded?
    ensures var r := ApplyBranding(b, entries, existing);
      && r.primaryColor == LastValue(entries, "primary_color").GetOr(b.primaryColor)
      && r.accentColor == LastValue(entries, "accent_color").GetOr(b.accentColor)
      && r.font == LastValue(entries, "font").GetOr(b.font)
    decreases |entries|
  {
    if |entries| > 0 {
      BrandingColors(ApplyBrandingEntry(b, entries[0], existing), entries[1..], existing);
    }
  }

  lemma {:induction false} BrandingContacts(b: Branding, entries: seq<Entry>, existing: set<string>)
    requires b.Branded?
    ensures var r := ApplyBranding(b, entries, existing);
      && r.reportFooter == LastValue(entries, "report_footer").GetOr(b.reportFooter)
      && r.phone == LastValue(entries, "phone").GetOr(b.phone)
      && r.web == LastValue(entries, "web").GetOr(b.web)
    decreases |entries|
  {
    if |entries| > 0 {
      BrandingContacts(ApplyBrandingEntry(b, entries[0], existing), entries[1..], existing);
    }
  }

  /** Address lines accumulate in the order they appear. */
  lemma {:induction false} BrandingAddress(b: Branding, entries: seq<Entry>, existing: set<string>)
    requires b.Branded?
    ensures ApplyBranding(b, entries, existing).addressLines == b.addressLines + AddressValues(entries)
    decreases |entries|
  {
    if |entries| > 0 {
      var b1 := ApplyBrandingEntry(b, entries[0], existing);
      BrandingAddress(b1, entries[1..], existing);
      var addr := if IsAddressKey(entries[0].key) then [entries[0].value] else [];
      assert b1.addressLines == b.addressLines + addr;
      assert b.addressLines + addr + AddressValues(entries[1..])
          == b.addressLines + (addr + AddressValues(entries[1..]));
    } else {
      assert b.addressLines + [] == b.addressLines;
    }
  }

  /** The logo is the last named file that exists; a named file that does
      not exist leaves the previous one standing. */
  lemma {:induction false} BrandingLogo(b: Branding, entries: seq<Entry>, existing: set<string>)
    requires b.Branded?
    ensures ApplyBranding(b, entries, existing).logoPath
            == if LastExistingLogo(entries, b.slug, existing).Some?
               then LastExistingLogo(entries, b.slug, existing) else b.logoPath
    decreases |entries|
  {
    if |entries| > 0 {
      BrandingLogo(ApplyBrandingEntry(b, entries[0], existing), entries[1..], existing);
    }
  }

  function KnownOnly(entries: seq<Entry>): (known: seq<Entry>)
    ensures forall k :: 0 <= k < |known| ==> IsBrandingKey(known[k].key)
  {
    if |entries| == 0 then []
    else (if IsBrandingKey(entries[0].key) then [entries[0]] else []) + KnownOnly(entries[1..])
  }

  /** Entries with keys the branding does not know change nothing. */
  lemma {:induction false} UnknownKeysIgnored(b: Branding, entries: seq<Entry>, existing: set<string>)
    requires b.Branded?
    ensures ApplyBranding(b, KnownOnly(entries), existing) == ApplyBranding(b, entries, existing)
    decreases |entries|
  {
    if |entries| > 0 {
      var e := entries[0];
      if IsBrandingKey(e.key) {
        assert KnownOnly(entries) == [e] + KnownOnly(entries[1..]);
        assert ([e] + KnownOnly(entries[1..]))[1..] == KnownOnly(entries[1..]);
        UnknownKeysIgnored(ApplyBrandingEntry(b, e, existing), entries[1..], existing);
      } else {
        assert KnownOnly(entries) == KnownOnly(entries[1..]);
        assert ApplyBrandingEntry(b, e, existing) == b;
        UnknownKeysIgnored(b, entries[1..], existing);
      }
    }
  }

  /** With no tenant file, or no branding block in it, the defaults stand. */
  lemma {:induction false} BrandingDefaults(t: TenantRow, store: Store, existing: set<string>)
    requires TenantKernelPath(t.slug) !in store
             || FencedBlock(store[TenantKernelPath(t.slug)], BrandingMarker).None?
    ensures TenantBranding(Some(t), store, existing) == DefaultBranding(t)
  {
  }

  /* ---------------------------------------------------------- logo upload */

  const DefaultLogo := "bunting-logo.png"
  const LogoKey := "logo_file"

  /** `\s*(\S+)`, tried at the head of `u`: optional whitespace, then the
      whole run of non-whitespace (at least one character). */
  function SpacedWord(u: string): (r: Option<string>)
    ensures r.Some? ==> |r.value| > 0 && NoSpace(r.value)
  {
    var w := TrimStart(u, IsSpace);
    var n := RunLength(w);
    if n == 0 then None else Some(w[..n])
  }

  /** The part of `logo_file\s*:=\s*(\S+)` after the key, tried at one
      position: optional whitespace, `:=`, then `\s*(\S+)`. */
  function LogoValueAfterKey(t: string): (r: Option<string>)
    ensures r.Some? ==> |r.value| > 0 && NoSpace(r.value)
  {
    var t1 := TrimStart(t, IsSpace);
    if !StartsWith(t1, Assign) then None else SpacedWord(t1[|Assign|..])
  }

  /** `re.search(r'logo_file\s*:=\s*(\S+)', text)`: the first position where
      the whole pattern matches, anywhere in the file. */
  function SearchLogoFile(s: string): (r: Option<string>)
    ensures r.Some? ==> |r.value| > 0 && NoSpace(r.value)
    decreases |s|
  {
    if |s| == 0 then None
    else if StartsWith(s, LogoKey) && LogoValueAfterKey(s[|LogoKey|..]).Some? then
      LogoValueAfterKey(s[|LogoKey|..])
    else SearchLogoFile(s[1..])
  }

  /* The pattern, stated without the scanner. */

  /** `u` matches `\s*(\S+)` with `b` spaces and the group `v`; `v` is the
      whole run of non-whitespace there, as the greedy `\S+` takes it. */
  ghost predicate WordShape(u: string, b: int, v: string) {
    && 0 <= b && b + |v| <= |u|
    && (forall k :: 0 <= k < b ==> IsSpace(u[k]))
    && |v| > 0 && NoSpace(v) && u[b..b + |v|] == v
    && (b + |v| == |u| || IsSpace(u[b + |v|]))
  }

  /** After the key, `t` matches `\s*:=\s*(\S+)` with `a` spaces, the
      `:=`, `b` spaces and the group `v`. */
  ghost predicate AssignShape(t: string, a: int, b: int, v: string) {
    && 0 <= a && a + |Assign| <= |t|
    && (forall k :: 0 <= k < a ==> IsSpace(t[k]))
    && t[a..a + |Assign|] == Assign
    && WordShape(t[a + |Assign|..], b, v)
  }

  lemma {:induction false} SpacedWordIsShape(u: string)
    requires SpacedWord(u).Some?
    ensures WordShape(u, |u| - |TrimStart(u, IsSpace)|, SpacedWord(u).value)
  {
    var w := TrimStart(u, IsSpace);
    TrimStartSpec(u, IsSpace);
    var b := |u| - |w|;
    var n := RunLength(w);
    assert u[b..b + n] == w[..n];
    assert b + n < |u| ==> u[b + n] == w[n];
  }

  lemma {:induction false} ShapeIsSpacedWord(u: string, b: int, v: string)
    requires WordShape(u, b, v)
    ensures SpacedWord(u) == Some(v)
  {
    var rest := u[b + |v|..];
    assert u == u[..b] + (v + rest);
    TrimStartPast(u[..b], v + rest, IsSpace);
    RunLengthOfWord(v, rest);
    assert (v + rest)[..|v|] == v;
  }

  /** What the scanner finds after the key is a match of the pattern. */
  lemma {:induction false} LogoValueIsShape(t: string)
    requires LogoValueAfterKey(t).Some?
    ensures exists a, b :: AssignShape(t, a, b, LogoValueAfterKey(t).value)
  {
    var t1 := TrimStart(t, IsSpace);
    TrimStartSpec(t, IsSpace);
    var a := |t| - |t1|;
    var u := t1[|Assign|..];
    assert t[a..a + |Assign|] == t1[..|Assign|];
    assert t[a + |Assign|..] == u;
    SpacedWordIsShape(u);
    assert AssignShape(t, a, |u| - |TrimStart(u, IsSpace)|, SpacedWord(u).value);
  }

  /** A match of the pattern after the key is what the scanner finds. */
  lemma {:induction false} ShapeIsLogoValue(t: string, a: int, b: int, v: string)
    requires AssignShape(t, a, b, v)
    ensures LogoValueAfterKey(t) == Some(v)
  {
    assert t == t[..a] + t[a..];
    TrimStartPast(t[..a], t[a..], IsSpace);
    var t1 := t[a..];
    assert t1[..|Assign|] == Assign;
    assert t1[|Assign|..] == t[a + |Assign|..];
    ShapeIsSpacedWord(t[a + |Assign|..], b, v);
  }

  /** The pattern tried at position `i` of the text. */
  function LogoMatchAt(s: string, i: nat): Option<string>
    requires i <= |s|
  {
    if StartsWith(s[i..], LogoKey) then LogoValueAfterKey(s[i..][|LogoKey|..]) else None
  }

  lemma {:induction false} LogoMatchShift(s: string, j: nat)
    requires 1 <= j <= |s|
    ensures LogoMatchAt(s, j) == LogoMatchAt(s[1..], j - 1)
  {
    assert s[j..] == s[1..][j - 1..];
  }

  /** `re.search` reports the group of the leftmost position where the
      pattern matches, and nothing when it matches nowhere. */
  lemma {:induction false} SearchLogoFileLeftmost(s: string)
    ensures SearchLogoFile(s).Some? ==>
              exists i :: 0 <= i <= |s| && LogoMatchAt(s, i) == SearchLogoFile(s)
                          && forall j :: 0 <= j < i ==> LogoMatchAt(s, j).None?
    ensures SearchLogoFile(s).None? ==> forall i :: 0 <= i <= |s| ==> LogoMatchAt(s, i).None?
    decreases |s|
  {
    assert s[0..] == s;
    assert LogoMatchAt(s, 0) == if StartsWith(s, LogoKey) then LogoValueAfterKey(s[|LogoKey|..]) else None;
    if |s| == 0 {
    } else if StartsWith(s, LogoKey) && LogoValueAfterKey(s[|LogoKey|..]).Some? {
      assert LogoMatchAt(s, 0) == SearchLogoFile(s);
    } else {
      assert LogoMatchAt(s, 0).None?;
      assert SearchLogoFile(s) == SearchLogoFile(s[1..]);
      SearchLogoFileLeftmost(s[1..]);
      forall j | 1 <= j <= |s| ensures LogoMatchAt(s, j) == LogoMatchAt(s[1..], j - 1) {
        LogoMatchShift(s, j);
      }
      if SearchLogoFile(s).Some? {
        var i :| 0 <= i <= |s[1..]| && LogoMatchAt(s[1..], i) == SearchLogoFile(s[1..])
                 && forall j :: 0 <= j < i ==> LogoMatchAt(s[1..], j).None?;
        assert LogoMatchAt(s, i + 1) == SearchLogoFile(s);
        assert forall j :: 0 <= j < i + 1 ==> LogoMatchAt(s, j).None?;
      }
    }
  }

  /** `upload_logo`'s file name, as written: the captured run, quotes and
      all, or the default when the file or the pattern is missing. */
  function LogoUploadNameAsWritten(tenantDoc: Option<string>): (name: string)
    ensures |name| > 0 && NoSpace(name)
    ensures tenantDoc.None? ==> name == DefaultLogo
    ensures tenantDoc.Some? && SearchLogoFile(tenantDoc.value).None? ==> name == DefaultLogo
    ensures tenantDoc.Some? && SearchLogoFile(tenantDoc.value).Some?
            ==> name == SearchLogoFile(tenantDoc.value).value
  {
    match tenantDoc
    case None => DefaultLogo
    case Some(doc) => SearchLogoFile(doc).GetOr(DefaultLogo)
  }

  /** The same with the quotes removed, as the branding reader does. */
  function LogoUploadName(tenantDoc: Option<string>): (name: string)
    ensures tenantDoc.None? ==> name == DefaultLogo
    ensures tenantDoc.Some? && SearchLogoFile(tenantDoc.value).None? ==> name == DefaultLogo
    ensures tenantDoc.Some? && SearchLogoFile(tenantDoc.value).Some?
            ==> name == StripQuotes(SearchLogoFile(tenantDoc.value).value)
    ensures name == [] || (!IsQuote(name[0]) && !IsQuote(name[|name| - 1]))
  {
    match tenantDoc
    case None => DefaultLogo
    case Some(doc) =>
      match SearchLogoFile(doc)
      case None => DefaultLogo
      case Some(v) => StripQuotesEnds(v); StripQuotes(v)
  }

  /** A file whose first line is `logo_file := "<v>"`. */
  function LogoLineDocument(v: string, rest: string): string {
    LogoKey + LogoAssignment(v, rest)
  }

  function LogoAssignment(v: string, rest: string): string {
    " " + (Assign + (" " + (Quoted(v) + rest)))
  }

  function Quoted(v: string): string {
    "\"" + v + "\""
  }

  predicate PlainFileName(v: string) {
    |v| > 0 && NoSpace(v) && !IsQuote(v[0]) && !IsQuote(v[|v| - 1])
  }

  /** The document is the written entry `logo_file := "v"` and what follows. */
  lemma {:induction false} LogoLineIsRendered(v: string, rest: string)
    ensures LogoLineDocument(v, rest) == RenderLine(Entry(LogoKey, v)) + rest
  {
  }

  /** After the key: the spaces and `:=` are skipped and the quoted name is
      the whole run of non-whitespace. */
  lemma {:induction false} LogoValueOfAssignment(v: string, rest: string)
    requires PlainFileName(v)
    requires rest == [] || IsSpace(rest[0])
    ensures LogoValueAfterKey(LogoAssignment(v, rest)) == Some(Quoted(v))
  {
    var t2 := Quoted(v) + rest;
    var t1 := Assign + (" " + t2);
    TrimStartPast(" ", t1, IsSpace);
    assert t1[..|Assign|] == Assign;
    assert t1[|Assign|..] == " " + t2;
    TrimStartPast(" ", t2, IsSpace);
    RunLengthOfWord(Quoted(v), rest);
    assert t2[..|Quoted(v)|] == Quoted(v);
  }

  lemma {:induction false} LogoLineSearch(v: string, rest: string)
    requires PlainFileName(v)
    requires rest == [] || IsSpace(rest[0])
    ensures SearchLogoFile(LogoLineDocument(v, rest)) == Some(Quoted(v))
  {
    var doc := LogoLineDocument(v, rest);
    assert doc[..|LogoKey|] == LogoKey;
    assert doc[|LogoKey|..] == LogoAssignment(v, rest);
    LogoValueOfAssignment(v, rest);
  }

  lemma {:induction false} LogoKeyWritable(v: string)
    requires PlainFileName(v)
    ensures LineWritable(Entry(LogoKey, v))
  {
    forall j | OccursAt(LogoKey, Assign, j) ensures false {
      OccurrenceChar(LogoKey, Assign, j, 0);
    }
  }

  /** With the quotes removed, the upload writes the file under the name
      the branding reader takes from the same line. */
  lemma {:induction false} LogoUploadMatchesBranding(v: string, rest: string)
    requires PlainFileName(v)
    requires rest == [] || IsSpace(rest[0])
    ensures ParseLine(RenderLine(Entry(LogoKey, v))) == Some(Entry(LogoKey, v))
    ensures LogoUploadName(Some(LogoLineDocument(v, rest))) == v
  {
    LogoLineSearch(v, rest);
    assert Quoted(v) == "\"" + v + "\"" + "";
    TrimBothPast("\"", v, "\"", IsQuote);
    LogoKeyWritable(v);
    ParseRenderLine(Entry(LogoKey, v));
  }

  /** As written, the upload keeps the quotes that the branding reader
      strips, so the two disagree on the file name. */
  lemma {:induction false} LogoUploadKeepsQuotes(v: string, rest: string)
    requires PlainFileName(v)
    requires rest == [] || IsSpace(rest[0])
    ensures LogoUploadNameAsWritten(Some(LogoLineDocument(v, rest))) == Quoted(v)
    ensures LogoUploadNameAsWritten(Some(LogoLineDocument(v, rest))) != v
  {
    LogoLineSearch(v, rest);
    assert |Quoted(v)| != |v|;
  }

  /** The search passes over a front part in which no `logo_file` starts. */
  lemma {:induction false} SearchSkipsPrefix(x: string, s: string)
    requires NoneBetween(x + s, LogoKey, 0, |x|)
    ensures SearchLogoFile(x + s) == SearchLogoFile(s)
    decreases |x|
  {
    if |x| > 0 {
      var xs := x + s;
      assert !OccursAt(xs, LogoKey, 0);
      assert !StartsWith(xs, LogoKey);
      assert xs[1..] == x[1..] + s;
      forall j | 0 <= j < |x| - 1 ensures !OccursAt(x[1..] + s, LogoKey, j) {
        if OccursAt(x[1..] + s, LogoKey, j) {
          assert xs[j + 1..j + 1 + |LogoKey|] == (x[1..] + s)[j..j + |LogoKey|];
          assert OccursAt(xs, LogoKey, j + 1);
        }
      }
      SearchSkipsPrefix(x[1..], s);
    } else {
      assert x + s == s;
    }
  }

  /** The text a branding block document holds before its first line. */
  function BlockHead(pre: string): string {
    pre + (BrandingMarker + "\n" + Fence + "\n")
  }

  lemma {:induction false} BlockHeadChars()
    ensures BrandingMarker + "\n" + Fence + "\n" == "### 品牌标识\n```\n"
    ensures 'l' !in BrandingMarker + "\n" + Fence + "\n"
    ensures forall k :: 0 < k < |LogoKey| ==> LogoKey[k] != '#'
  {
  }

  /** No `logo_file` starts before the first line of a branding block when
      none is written in the text before the block. */
  lemma {:induction false} NoKeyBeforeBlock(pre: string, rest: string)
    requires NoneBetween(pre, LogoKey, 0, |pre|)
    ensures NoneBetween(BlockHead(pre) + rest, LogoKey, 0, |BlockHead(pre)|)
  {
    var tail := BrandingMarker + "\n" + Fence + "\n";
    var doc := BlockHead(pre) + rest;
    BlockHeadChars();
    assert doc == pre + (tail + rest);
    assert doc[|pre|] == '#';
    forall j | 0 <= j < |BlockHead(pre)| ensures !OccursAt(doc, LogoKey, j) {
      if OccursAt(doc, LogoKey, j) {
        if j + |LogoKey| <= |pre| {
          OccursInFront(pre, tail + rest, LogoKey, j);
        } else if j < |pre| {
          OccurrenceChar(doc, LogoKey, j, |pre| - j);
        } else {
          assert doc[j] == tail[j - |pre|];
          OccurrenceChar(doc, LogoKey, j, 0);
        }
      }
    }
  }

  /** The entries of a branding block whose first line is `logo_file :=
      "v"` and whose later lines assign other keys. */
  ghost predicate LogoFirstEntries(v: string, entries: seq<Entry>) {
    && |entries| > 0 && entries[0] == Entry(LogoKey, v) && PlainFileName(v)
    && (forall k :: 0 <= k < |entries| ==> Writable(entries[k]))
    && (forall k :: 0 < k < |entries| ==> entries[k].key != LogoKey)
  }

  /** The written block is the `logo_file` line, then a line break. */
  lemma {:induction false} LogoFirstBody(v: string, entries: seq<Entry>) returns (more: string)
    requires |entries| > 0 && entries[0] == Entry(LogoKey, v)
    ensures Join(RenderLines(entries), "\n") + "\n" == RenderLine(entries[0]) + ("\n" + more)
  {
    var lines := RenderLines(entries);
    assert lines == [lines[0]] + lines[1..];
    if |entries| == 1 {
      more := "";
    } else {
      JoinFront(lines[0], lines[1..], "\n");
      more := Join(lines[1..], "\n") + "\n";
    }
  }

  /** The corrected upload finds `logo_file := "v"` as the first line of a
      branding block and writes `v`. */
  lemma {:induction false} LogoUploadNameInBlock(pre: string, v: string, entries: seq<Entry>, post: string)
    requires NoneBetween(pre, LogoKey, 0, |pre|)
    requires |entries| > 0 && entries[0] == Entry(LogoKey, v) && PlainFileName(v)
    ensures LogoUploadName(Some(RenderDocument(pre, BrandingMarker, entries, post))) == v
  {
    var more := LogoFirstBody(v, entries);
    var rest := "\n" + more + (Fence + post);
    var body := Join(RenderLines(entries), "\n");
    var doc := RenderDocument(pre, BrandingMarker, entries, post);
    calc {
      doc;
      (pre + BrandingMarker + "\n" + Fence) + ("\n" + body + "\n") + (Fence + post);
      BlockHead(pre) + (body + "\n") + (Fence + post);
      BlockHead(pre) + (RenderLine(entries[0]) + ("\n" + more)) + (Fence + post);
      BlockHead(pre) + (RenderLine(entries[0]) + rest);
    }
    LogoLineIsRendered(v, rest);
    NoKeyBeforeBlock(pre, LogoLineDocument(v, rest));
    SearchSkipsPrefix(BlockHead(pre), LogoLineDocument(v, rest));
    LogoUploadMatchesBranding(v, rest);
  }

  /** No later entry names a logo. */
  lemma {:induction false} NoLaterLogo(entries: seq<Entry>, slug: string, existing: set<string>)
    requires forall k :: 0 <= k < |entries| ==> entries[k].key != LogoKey
    ensures LastExistingLogo(entries, slug, existing) == None
    decreases |entries|
  {
    if |entries| > 0 {
      NoLaterLogo(entries[1..], slug, existing);
    }
  }

  /** Through the tenant file: when the first line of its branding block is
      `logo_file := "v"` and no later line assigns `logo_file`, the corrected
      upload writes `v`, and the branding reader takes as logo exactly the
      path built from that name once the file exists. */
  lemma {:induction false} UploadedLogoIsBrandingLogo(t: TenantRow, store: Store, existing: set<string>,
                                                     pre: string, v: string, entries: seq<Entry>, post: string)
    requires MarkerFirstAfter(pre, BrandingMarker) && NoneBetween(pre, LogoKey, 0, |pre|)
    requires LogoFirstEntries(v, entries)
    requires TenantKernelPath(t.slug) in store
    requires store[TenantKernelPath(t.slug)] == RenderDocument(pre, BrandingMarker, entries, post)
    ensures LogoUploadName(Load(store, TenantKernelPath(t.slug))) == v
    ensures TenantBranding(Some(t), store, existing).logoPath
            == if LogoPath(t.slug, v) in existing then Some(LogoPath(t.slug, v)) else None
  {
    TenantEntriesOfDocument(store, t.slug, BrandingMarker, pre, entries, post);
    BrandingLogo(DefaultBranding(t), entries, existing);
    NoLaterLogo(entries[1..], t.slug, existing);
    LogoUploadNameInBlock(pre, v, entries, post);
  }
}
