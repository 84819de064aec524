/**
 * What the text transforms read from outside: the tenant row and the kernel
 * files on disk. The filesystem is a map from absolute path to file text; a
 * path that is not a key does not exist.
 */
module Tenancy {
  import opened Wrappers
  import opened Text

  type Store = map<string, string>

  /** `SELECT company_name, tenant_slug FROM tenants`; `None` when no row. */
  datatype TenantRow = TenantRow(companyName: string, slug: string)

  /** The tenant layer of the kernel, which also carries the config blocks:
      `Path(f"/app/kernels/tenants/{slug}-sds.ttc.md")`, normalised. */
  function TenantKernelPath(slug: string): string {
    PurePath("/app/kernels/tenants/" + slug + "-sds.ttc.md")
  }

  /** `Path(path).read_text()` guarded by `Path(path).exists()`. */
  function Load(store: Store, path: string): (r: Option<string>)
    ensures r.Some? <==> path in store
    ensures r.Some? ==> r.value == store[path]
  {
    if path in store then Some(store[path]) else None
  }

  /* ------------------------------------------------------------ pathlib */

  /** The segments `pathlib` keeps: empty ones (from doubled or trailing
      slashes) and `.` are dropped; `..` is kept, as `pathlib` does not
      resolve it. */
  function PathSegments(parts: seq<string>): (kept: seq<string>)
    ensures forall k :: 0 <= k < |kept| ==> kept[k] != "" && kept[k] != "."
    ensures forall x :: x in kept ==> x in parts
  {
    if parts == [] then []
    else (if parts[0] == "" || parts[0] == "." then [] else [parts[0]]) + PathSegments(parts[1..])
  }

  /** `str(Path(p))` for a path with a single leading slash: the root, then
      the kept segments joined by slashes. */
  function PurePath(p: string): string {
    "/" + Join(PathSegments(Split(p, "/")), "/")
  }

  lemma {:induction false} PathSegmentsAppend(a: seq<string>, b: seq<string>)
    ensures PathSegments(a + b) == PathSegments(a) + PathSegments(b)
    decreases |a|
  {
    if a == [] {
      assert a + b == b;
    } else {
      var head := if a[0] == "" || a[0] == "." then [] else [a[0]];
      assert (a + b)[0] == a[0] && (a + b)[1..] == a[1..] + b;
      PathSegmentsAppend(a[1..], b);
      assert head + (PathSegments(a[1..]) + PathSegments(b))
          == (head + PathSegments(a[1..])) + PathSegments(b);
    }
  }

  /** A `.` segment, or an empty one from a doubled slash, does not change
      a path: `a/<mid>/b` normalises as `a/b`. */
  lemma {:induction false} DroppedSegment(a: string, mid: string, b: string)
    requires mid == "" || mid == "."
    ensures PurePath(a + "/" + mid + "/" + b) == PurePath(a + "/" + b)
  {
    var sa, sb := Split(a, "/"), Split(b, "/");
    SplitWithoutSeparator(mid, '/');
    SplitAppend(a, '/', mid);
    SplitAppend(a + "/" + mid, '/', b);
    SplitAppend(a, '/', b);
    assert Split(a + "/" + mid + "/" + b, "/") == (sa + [mid]) + sb;
    assert Split(a + "/" + b, "/") == sa + sb;
    PathSegmentsAppend(sa + [mid], sb);
    PathSegmentsAppend(sa, [mid]);
    PathSegmentsAppend(sa, sb);
    assert PathSegments([mid]) == [];
    assert PathSegments(sa + [mid]) == PathSegments(sa);
  }

  /** A trailing slash does not change a path. */
  lemma {:induction false} TrailingSlashDropped(a: string)
    ensures PurePath(a + "/") == PurePath(a)
  {
    var sa := Split(a, "/");
    SplitAppend(a, '/', "");
    assert a + "/" == a + ['/'] + "";
    assert Split("", "/") == [""];
    assert Split(a + "/", "/") == sa + [""];
    PathSegmentsAppend(sa, [""]);
    assert PathSegments([""]) == [];
    assert PathSegments(sa + [""]) == PathSegments(sa);
  }

  /** A segment `pathlib` keeps as written. */
  predicate PlainSegment(x: string) {
    x != "" && x != "." && '/' !in x
  }

  lemma {:induction false} PathSegmentsKeepPlain(parts: seq<string>)
    requires forall k :: 0 <= k < |parts| ==> PlainSegment(parts[k])
    ensures PathSegments(parts) == parts
    decreases |parts|
  {
    if parts != [] {
      PathSegmentsKeepPlain(parts[1..]);
      assert [parts[0]] + parts[1..] == parts;
    }
  }

  /** A path of plain segments under the root is already normal. */
  lemma {:induction false} PlainPathUnchanged(parts: seq<string>)
    requires |parts| >= 1
    requires forall k :: 0 <= k < |parts| ==> PlainSegment(parts[k])
    ensures PurePath("/" + Join(parts, "/")) == "/" + Join(parts, "/")
  {
    var all := [""] + parts;
    JoinFront("", parts, "/");
    assert "/" + Join(parts, "/") == Join(all, "/");
    assert all[1..] == parts;
    JoinThenSplit(all, '/');
    PathSegmentsKeepPlain(parts);
    assert PathSegments(all) == PathSegments(parts);
  }
}
