# sds-agent text core in Dafny

This project models the pure text logic inside the SDS-management backend
(`backend/main.py`) and proves properties of it. The backend is a FastAPI
service for chemical safety data sheets. The model covers six parts of it:

- **Kernel composer** (`load_agent_kernel`). It takes the agent kernel, or a
  one-line fallback, and injects `{TENANT_NAME}` and `{CHEMICAL_LIST}`. It
  then appends one section per distinct `§tools/<ref>.ttc.md` reference
  whose fragment file exists, and finally the tenant layer.
- **Config blocks** in a tenant's kernel file. This is the first fenced
  region after `### 品牌标识` (branding) or `### 打印配置` (printer), read
  as `key := value` lines. The branding reader merges known keys into
  defaults. The printer reader keeps every key. The logo upload looks up
  `logo_file` on its own.
- **Label data and ZPL encoding** (`generate_label`, `generate_zpl_label`).
  The secondary and full GHS templates are written out field by field, with
  the source's truncations. A small ZPL reader is defined next to them, so
  that what the encoder puts on the label can be stated as a read-back.
- **Printer target** (`print_label`). A request address overrides the
  printer block. A missing address, or the placeholder `TBD`, means no
  printer is configured.
- **Storage compatibility** (`check_compatibility`). Chemicals are grouped
  by location in first-seen order, and the two incompatible class pairs
  raise warnings.

Modules:

- `Wrappers`: `Option`.
- `Text`: strip, split, join, find, literal replace, truncation, `str(int)`.
- `Tenancy`: tenant row and filesystem.
- `Kernel`
- `ConfigBlock`
- `Zpl`
- `Printing`
- `Compatibility`

Inputs are handled as follows:

- The filesystem is a map from absolute path to file text.
- `Path.exists` of an uploaded logo is a set of existing paths.
- Database rows are input sequences.
- The clock is a parameter.

Three behaviours of the code are easy to misread, and the model keeps them
as the code has them:

- **Tool-section order.** The sections come from iterating `set(tool_refs)`,
  so their order is not the order in which the references appear.
  `Kernel.AppendToolSections` picks references in an arbitrary order. It
  also returns that order, and the proofs hold for every order.
- **Quotes.** `strip('"')` removes every leading and trailing quote, not
  only one pair.
- **Tenant layer.** The tenant layer gets only `{TENANT_NAME}` replaced.

## Model

| member | source | states |
|---|---|---|
| Tenancy.DroppedSegment | backend/main.py:217 | `pathlib` normalisation of the path built from the f-string: a `.` segment or a doubled slash does not change it. |
| Tenancy.TrailingSlashDropped | backend/main.py:217 | A trailing slash does not change the path. |
| Kernel.ChemicalList | backend/main.py:155-158 | The roster is the "No chemicals registered yet." line exactly when there are no rows. Otherwise it is the newline join of one line per row. |
| Kernel.RosterReadsBack | backend/main.py:155-158 | If no column holds a newline, splitting the roster on newlines gives back one line per chemical, in order. |
| Kernel.ReplaceAfterPlain | backend/main.py:161-162 | Literal replacement copies a stretch without the token's first character, replaces the token and carries on after it. |
| Kernel.SubstituteOneName | backend/main.py:161-162 | In a base text with one `{TENANT_NAME}` and no other brace, the two passes inject the name there and change nothing else. |
| Kernel.LongestRefWithin | backend/main.py:165 | Backtracking result: the longest prefix of the whitespace-free run that ends in `.ttc.md`, has a character before the suffix, and is the longest such prefix. None when there is none. |
| Kernel.MatchRef | backend/main.py:165 | The group captured after `§tools/` is a prefix of the text and a well-formed reference. No longer prefix is one. |
| Kernel.RefsAreWellFormed | backend/main.py:165 | Every reference the scanner reports has no whitespace, ends in `.ttc.md` and is longer than the suffix. |
| Kernel.RefsWithoutSigil | backend/main.py:165 | Text without `§` yields no references. |
| Kernel.RefsAtSigil | backend/main.py:165 | A whole reference after `§tools/`, closed by whitespace or the end of the text, is reported as written, and scanning resumes after it. |
| Kernel.RefsAreMatches | backend/main.py:165 | Soundness: every reported reference is the group of a match of the pattern somewhere in the text. |
| Kernel.RefsFromLeftmost | backend/main.py:165 | The leftmost match is reported first, and scanning resumes right after it. |
| Kernel.RefsFindSpaced | backend/main.py:165 | Completeness: a match at the start of the text or after whitespace is always reported. |
| Kernel.AppendToolSections | backend/main.py:164-171 | The set loop visits each distinct reference of layer 1 once, in some order. It appends a section for exactly the ones whose fragment exists. |
| Kernel.ComposeKernel | backend/main.py:130-180 | The kernel is the substituted base, then the tool sections of the references found in that base only, then the tenant layer last. |
| Kernel.ToolSectionsAreLoaded | backend/main.py:166-171 | Missing fragments add nothing: layer 2 is the sections of the references whose fragment exists, in visiting order. |
| Kernel.LoadedRefsExactlyOnce | backend/main.py:165-171 | Each distinct reference contributes one section if its fragment exists and none otherwise. None contributes twice. |
| Kernel.SectionOrderIsPermutation | backend/main.py:166 | Any two iteration orders of the reference set load the same sections, as a permutation. |
| Kernel.FallbackKernelHasNoTools | backend/main.py:134-138 | Without the agent kernel file there are no tool sections. The kernel is the fallback line plus at most the tenant layer. |
| Kernel.SingleReferenceKernel | backend/main.py:133-180 | A base with one name placeholder and one trailing reference gives the injected base, exactly one tool section, and no tenant layer when the tenant file is absent. |
| Kernel.TenantLayerKeepsRosterToken | backend/main.py:174-178 | The tenant layer replaces only `{TENANT_NAME}`, so a `{CHEMICAL_LIST}` in the tenant file reaches the kernel unreplaced. |
| ConfigBlock.FencedBlockFindsMatch | backend/main.py:206 | If the pattern marker, fence, fence matches anywhere, a block is found. |
| ConfigBlock.FencedBlockIsMatch | backend/main.py:206 | A block that is found is the group of the leftmost match: the first marker, the first fence after it and the first fence after that, and its value is the text between the two fences. |
| ConfigBlock.FirstBlockIsFound | backend/main.py:206 | Conversely, the text between the fences of the leftmost match is the block found. |
| ConfigBlock.FencedBlockHasNoFence | backend/main.py:206 | The lazy group holds no fence. It stops at the first closing fence. |
| ConfigBlock.ParsedEntryShape | backend/main.py:210-215 | A parsed key holds no `:=` (the split is at the first one) and has no surrounding whitespace. A parsed value has no quote at either end. |
| ConfigBlock.ConfigRoundTrip | backend/main.py:206-215 | A block written as `key := "value"` lines under the marker reads back as exactly those entries, in order. Any text may come before the marker, headings and other blocks included, as long as the marker itself does not occur in it. |
| ConfigBlock.TenantBranding | backend/main.py:183-203 | An unknown tenant gets only name and slug. A known tenant keeps its name and slug. |
| ConfigBlock.BrandingDefaults | backend/main.py:193-208 | With no tenant file, or no branding block, the defaults stand: `#003366`, `#CC0000`, `Helvetica`, footer "Confidential — company". |
| ConfigBlock.BrandingColors | backend/main.py:220-222 | The colours and font are the last assignment of their key, or the defaults. |
| ConfigBlock.BrandingContacts | backend/main.py:223-225 | The footer, phone and web are the last assignment of their key, or the defaults. |
| ConfigBlock.BrandingAddress | backend/main.py:226-227 | The address lines are the `line1`/`line2`/`line3` values in encounter order. |
| ConfigBlock.BrandingLogo | backend/main.py:216-219 | The logo is the normalised upload path of the last `logo_file` whose file exists. Names whose file is missing leave it unchanged. |
| ConfigBlock.LogoPathOfPlainName | backend/main.py:217-219 | For a plain slug and file name, the stored logo path is `/app/uploads/tenants/<slug>/<file>` as written. |
| ConfigBlock.LogoPathOfEmptyName | backend/main.py:217-219 | An empty `logo_file` names the tenant's upload directory itself, without the trailing slash. |
| ConfigBlock.UnknownKeysIgnored | backend/main.py:216-227 | Dropping every entry whose key the branding does not know gives the same branding. |
| ConfigBlock.PrinterConfig | backend/main.py:232-259 | An unknown tenant gives an empty map. Otherwise the config has exactly the keys of the printer block, each with its last value. |
| ConfigBlock.PrinterConfigRoundTrip | backend/main.py:246-257 | A written printer block reads back as the map of its entries, later duplicates winning. Any text without the printer heading may come before it, the branding block included. |
| ConfigBlock.LaterAssignmentWins | backend/main.py:257 | Of two assignments to one key, the later value stands. |
| ConfigBlock.LogoValueIsShape | backend/main.py:1090 | What the scanner takes after `logo_file` is a match of `\s*:=\s*(\S+)`: spaces, `:=`, spaces, then the whole run of non-whitespace. |
| ConfigBlock.ShapeIsLogoValue | backend/main.py:1090 | Conversely, any such match after the key is what the scanner takes. |
| ConfigBlock.SearchLogoFileLeftmost | backend/main.py:1090 | `re.search` reports the match at the leftmost position where the pattern matches. It reports nothing exactly when it matches at no position. |
| ConfigBlock.LogoUploadNameAsWritten | backend/main.py:1087-1092 | The upload name is `bunting-logo.png` when the tenant file is missing or the pattern does not match. Otherwise it is the captured run, a non-empty run without whitespace. |
| ConfigBlock.LogoUploadKeepsQuotes | backend/main.py:1090-1092 | As written, `logo_file := "v"` makes the upload write `"v"` with its quotes, which is not the name the branding reader uses. |
| ConfigBlock.LogoUploadName | backend/main.py:1087-1092 | The corrected upload name is the captured run with its quotes stripped, so it has no quote at either end. It is `bunting-logo.png` when the file or the match is missing. |
| ConfigBlock.LogoUploadMatchesBranding | backend/main.py:1090-1092 | Corrected: the upload writes the file under the same name the branding reader parses from that line. |
| ConfigBlock.UploadedLogoIsBrandingLogo | backend/main.py:1087-1092 | Corrected, through the tenant file: when the first line of its branding block is `logo_file := "v"`, no later line of the block assigns `logo_file`, and no `logo_file` is written before the block, the upload writes `v`, and the branding reader's logo is the upload path of `v` once that file exists, and no logo otherwise. |
| Zpl.BuildLabelData | backend/main.py:579-594 | A JSON `null` precautionary list stops the request with a `TypeError`, and nothing else does. Signal word and manufacturer come from the chemical row when non-empty, else from the SDS extract: "" for a missing key, `None` for a `null`, and they print as `None` then. A `null` pictogram or hazard list is kept as `None`. The precautions are the first min(n, 6) of the extract's. The other fields are copied. |
| Zpl.LabelTextOf | backend/main.py:629-636 | A `None` hazard list stops the request. Otherwise the name is the first min(n, 40) characters of the product name, and hazards and precautions are the first min(n, 300) and min(n, 400) characters of their space joins. A `None` signal word or supplier prints as `None`. |
| Zpl.EncodeZpl | backend/main.py:627-649 | The encoder stops exactly when the hazard list is `None`, or when the pictogram codes are `None` on a label that is not secondary. |
| Zpl.GenerateLabel | backend/main.py:579-597 | The request stops with a `TypeError` exactly when the extract's precautionary list is `null`, its hazard list is `null` on a label that gets ZPL, or its pictogram codes are `null` on a GHS primary label. Otherwise ZPL is stored exactly for the GHS primary and secondary types. |
| Zpl.GeneratedSecondaryReadsBack | backend/main.py:579-597 | End to end for a secondary label. Holds for source texts without `^` or newline (`PlainSources`). It succeeds exactly when neither the precautionary nor the hazard list is `null`. The ZPL then reads back as the row's name cut to 40, the row's signal word or else the extract's (`None` for a `null`), the extract's hazards cut to 100, and the quantity as copy count. |
| Zpl.GeneratedPrimaryReadsBack | backend/main.py:579-597 | End to end for a GHS primary label. Holds for source texts without `^` or newline (`PlainSources`). It succeeds exactly when none of the three lists is `null`. The ZPL then reads back as every template field, from the row or else the extract (`None` for a `null` text), with the first six precautions and the source's truncations. |
| Zpl.ReadProgram | backend/main.py:627-674 | For well-formed lines, reading the joined program gives back each field's data in order and the `^PQ` count. |
| Zpl.SecondaryLabelReadBack | backend/main.py:638-646 | When encoding succeeds, a secondary label reads back as name (at most 40 characters), signal word (`None` printed as such), hazards cut to 100 characters, and the quantity as its copy count. |
| Zpl.PrimaryLabelReadBack | backend/main.py:648-674 | When encoding succeeds, a full label reads back as its ten fields in template order, and the quantity as its copy count. |
| Zpl.SecondaryIgnoresOtherFields | backend/main.py:638-646 | The secondary label depends only on name, signal word, hazards and quantity. It does not depend on the date. |
| Printing.PrintTarget | backend/main.py:696-710 | There is no label exactly when the stored ZPL is missing or empty. A send goes to port 9100 with the stored ZPL and a real address, the one settled on. |
| Printing.SendsIffConfigured | backend/main.py:700-710 | A stored label is sent exactly when the settled address is non-empty and not `TBD`. |
| Printing.RequestOverridesConfig | backend/main.py:700-701 | With an address in the request, the printer config plays no part. |
| Printing.ConfigUsedWithoutRequest | backend/main.py:701-705 | Without a request address, a real configured `printer_ip` is where the label goes. |
| Printing.PlaceholderIsUnconfigured | backend/main.py:705 | `printer_ip := TBD` behaves exactly like no `printer_ip` at all. |
| Printing.RequestPlaceholderSkipsConfig | backend/main.py:700-705 | `TBD` in the request is not an empty address. The config is not consulted and nothing is sent. |
| Printing.PrintsToDocumentPrinter | backend/main.py:700-705 | End to end: with no request address, the label goes to the last `printer_ip` of the tenant file's printer block, whatever text without the printer heading comes before the block. |
| Compatibility.Located | backend/main.py:798 | Only chemicals with a location take part. Each located row keeps its multiplicity, and rows without one are dropped. |
| Compatibility.LocatedAppend | backend/main.py:798 | The filter works row by row: the located rows of two lists, one after the other, are the located rows of each, in order. |
| Compatibility.LocationsSpec | backend/main.py:803-808 | The groups' locations are distinct. They are exactly the locations some row carries. |
| Compatibility.GroupedStep | backend/main.py:805-812 | One more row joins the group of its location, or opens a new group at the end. |
| Compatibility.GroupByLocation | backend/main.py:803-812 | The grouping loop builds the first-seen-order grouping. |
| Compatibility.GroupsPartitionRows | backend/main.py:803-812 | The groups together hold as many members as there are rows: no row is lost or counted twice. |
| Compatibility.WarningsSpec | backend/main.py:820-825 | A warning is raised exactly for a location and rule where both class sets meet the classes present. It lists the location's chemicals. |
| Compatibility.IncompatibleLocation | backend/main.py:815-825 | A location warns of fire risk iff it holds flammables and oxidizers, and of reaction risk iff it holds corrosives and flammables, in that order. |
| Compatibility.CheckCompatibility | backend/main.py:803-832 | The report holds the grouping of the located rows, its warnings, the number of rows and the number of distinct locations. |

## Left out

- HTTP routing, JWT and bcrypt authentication, `set_tenant_context` and SQL are external libraries and I/O. Query results are input sequences in the order the query returns them, so `ORDER BY` is not modelled.
- A SQL NULL in a text column reads as "". Python's `or` defaults treat NULL and "" alike, but a NULL `storage_class` or `status` would print as `None` in the roster. That case is not modelled.
- Reading files and `Path.exists` are a map from path to text, and a set of existing upload paths. Every file path the code builds with `Path(f"...")` (the tool fragments, the tenant kernel file and the logo upload) is normalised as `pathlib` does for a path with one leading slash: empty and `.` segments are dropped, and `..` stays a segment as in `pathlib`; how the filesystem resolves `..` is not modelled. The upload side (`logo_dir / logo_filename`, backend/main.py:1094) is not modelled, so an absolute `logo_file` replacing the directory there is not either.
- `datetime.utcnow()` is nondeterministic. `generated_at` and the label date are parameters.
- `json.loads` of the stored SDS extract is a foreign library. The extract is an input whose keys are each missing, JSON `null`, or a value. The texts are taken to be strings and the lists to be lists of strings. A value of another JSON type, a `null` inside a list, and an extract that is not a JSON object are not modelled.
- The database writes after label generation, and the socket send and print-count update in `print_label` (backend/main.py:713-739), are network and database I/O. `Printing.PrintTarget` stops at the decision to send.
- The Gemini calls and the JSON recovery of their output are an external service.
- `log_tokens` cost and the PDF report are floating point and a foreign library.
- The frontend is React UI and build configuration only.
- Zpl.SecondaryLabelReadBack: the read-back requires field data without `^` or newline. ZPL has no escaping here, so a `^` in a product name would end the field early. The encoder itself takes any text.
- Zpl.PrimaryLabelReadBack: the same restriction on field data as for the secondary label.
- Zpl.GeneratedSecondaryReadsBack: the read-back requires a chemical row, SDS extract and date without `^` or newline (`PlainSources`), for the same reason. What a reader recovers from other text is not stated.
- Zpl.GeneratedPrimaryReadsBack: the same restriction (`PlainSources`) as for the secondary label.
- ConfigBlock.UploadedLogoIsBrandingLogo: it covers a branding block whose first line is the `logo_file` assignment and whose later lines assign other keys, with no `logo_file` text before the block. Where the upload's search would stop elsewhere in the file is stated by `ConfigBlock.SearchLogoFileLeftmost`, not through the branding block.
- Kernel.AppendToolSections: the visiting order is an output picked by `:|`. The proofs cover every order, but do not name the one CPython's set hashing picks.

## Findings

| source | as written | input that shows it | evidently intended | confidence | as-written member | corrected member |
|---|---|---|---|---|---|---|
| backend/main.py:1090-1092 | `upload_logo` captures the `logo_file` value with `(\S+)` and keeps its quotes. The branding reader strips them (backend/main.py:215-217). | A tenant file line `logo_file := "acme.png"`. The upload writes a file named `"acme.png"`, quotes included, while branding looks for `acme.png`. So the uploaded logo is never found. | Strip the quotes as the branding reader does, so both use `acme.png`. | medium, not executed | ConfigBlock.LogoUploadKeepsQuotes | ConfigBlock.LogoUploadMatchesBranding |
