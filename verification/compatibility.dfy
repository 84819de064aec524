/**
 * The storage-compatibility check (`check_compatibility`): chemicals grouped
 * by storage location, in the order locations first appear, and a warning
 * for every location that holds both sides of an incompatible pair of
 * storage classes.
 */
module Compatibility {
  import opened Wrappers

  /** One row of the tenant's chemicals. A SQL NULL reads as "". */
  datatype StoredChemical = StoredChemical(
    id: string, name: string, storageClass: string, location: string,
    signalWord: string, hazardClass: string)

  /** What the report keeps of a chemical under its location. */
  datatype Member = Member(
    id: string, name: string, storageClass: string, signalWord: string, hazardClass: string)

  datatype Group = Group(location: string, members: seq<Member>)

  /** Two sets of storage classes that must not share a location. */
  datatype Rule = Rule(classesA: set<string>, classesB: set<string>, message: string)

  datatype Warning = Warning(location: string, message: string, chemicals: seq<string>)

  datatype Report = Report(
    locations: seq<Group>, warnings: seq<Warning>, totalChemicals: nat, totalLocations: nat)

  const Flammable := "flammable_cabinet"
  const Oxidizer := "oxidizer_cabinet"
  const Corrosive := "corrosive_cabinet"
  const FireRisk := "Flammables + Oxidizers: fire/explosion risk"
  const ReactionRisk := "Corrosives + Flammables: reaction risk"

  const IncompatiblePairs: seq<Rule> :=
    [ Rule({Flammable}, {Oxidizer}, FireRisk),
      Rule({Corrosive}, {Flammable}, ReactionRisk) ]

  function MemberOf(c: StoredChemical): Member {
    Member(c.id, c.name, c.storageClass, c.signalWord, c.hazardClass)
  }

  /* ----------------------------------------------------------- the query */

  /** The query's `location IS NOT NULL AND location != ''`: every row with
      a location, as often as it occurs, and no other. */
  function Located(rows: seq<StoredChemical>): (located: seq<StoredChemical>)
    ensures |located| <= |rows|
    ensures forall k :: 0 <= k < |located| ==> located[k].location != ""
    ensures forall c :: c in rows && c.location != "" ==> c in located
    ensures forall c :: c in located ==> c in rows
    ensures forall c :: multiset(located)[c] == if c.location != "" then multiset(rows)[c] else 0
    decreases |rows|
  {
    if rows == [] then []
    else
      assert rows == [rows[0]] + rows[1..];
      (if rows[0].location != "" then [rows[0]] else []) + Located(rows[1..])
  }

  /** The filter keeps the query's order: the located rows of two stretches
      of rows are those of the first, then those of the second. */
  lemma {:induction false} LocatedAppend(a: seq<StoredChemical>, b: seq<StoredChemical>)
    ensures Located(a + b) == Located(a) + Located(b)
    decreases |a|
  {
    if a == [] {
      assert a + b == b;
    } else {
      var head := if a[0].location != "" then [a[0]] else [];
      assert (a + b)[0] == a[0];
      assert (a + b)[1..] == a[1..] + b;
      assert Located(a + b) == head + Located(a[1..] + b);
      LocatedAppend(a[1..], b);
      RowsAssoc(head, Located(a[1..]), Located(b));
    }
  }

  lemma {:induction false} RowsAssoc(x: seq<StoredChemical>, y: seq<StoredChemical>, z: seq<StoredChemical>)
    ensures x + (y + z) == (x + y) + z
  {
  }

  /* ---------------------------------------------- reference definitions */

  /** The distinct locations of `rows`, in the order they first appear. */
  function Locations(rows: seq<StoredChemical>): seq<string> {
    if rows == [] then []
    else
      var front := Locations(rows[..|rows| - 1]);
      var loc := rows[|rows| - 1].location;
      if loc in front then front else front + [loc]
  }

  /** The chemicals stored at `loc`, in row order. */
  function MembersAt(rows: seq<StoredChemical>, loc: string): seq<Member> {
    if rows == [] then []
    else
      var last := rows[|rows| - 1];
      MembersAt(rows[..|rows| - 1], loc) + (if last.location == loc then [MemberOf(last)] else [])
  }

  /** The grouping the report promises: one group per distinct location, in
      first-appearance order, holding exactly that location's chemicals. */
  function Grouped(rows: seq<StoredChemical>): (groups: seq<Group>)
    ensures |groups| == |Locations(rows)|
  {
    var locs := Locations(rows);
    seq(|locs|, i requires 0 <= i < |locs| => Group(locs[i], MembersAt(rows, locs[i])))
  }

  predicate Distinct(xs: seq<string>) {
    forall i, j :: 0 <= i < j < |xs| ==> xs[i] != xs[j]
  }

  /* ------------------------------------------- facts about the reference */

  lemma {:induction false} LocationsSpec(rows: seq<StoredChemical>)
    ensures Distinct(Locations(rows))
    ensures forall loc :: loc in Locations(rows) <==> exists c :: c in rows && c.location == loc
    decreases |rows|
  {
    if rows != [] {
      var front := rows[..|rows| - 1];
      LocationsSpec(front);
      assert rows == front + [rows[|rows| - 1]];
    }
  }

  lemma {:induction false} MembersAtAbsent(rows: seq<StoredChemical>, loc: string)
    requires forall c :: c in rows ==> c.location != loc
    ensures MembersAt(rows, loc) == []
    decreases |rows|
  {
    if rows != [] {
      var front := rows[..|rows| - 1];
      assert forall c :: c in front ==> c in rows;
      MembersAtAbsent(front, loc);
    }
  }

  /** The Python loop's step: a row joins the group of its location, or
      opens a new group at the end when its location is new. */
  function AddRow(groups: seq<Group>, c: StoredChemical): seq<Group> {
    match IndexOfLocation(groups, c.location)
    case Some(j) =>
      groups[j := Group(c.location, groups[j].members + [MemberOf(c)])]
    case None => groups + [Group(c.location, [MemberOf(c)])]
  }

  /** `loc in locations`: the position of the group of `loc`. */
  function IndexOfLocation(groups: seq<Group>, loc: string): (r: Option<nat>)
    ensures r.Some? ==> r.value < |groups| && groups[r.value].location == loc
    ensures r.None? ==> forall i :: 0 <= i < |groups| ==> groups[i].location != loc
  {
    if groups == [] then None
    else if groups[|groups| - 1].location == loc then Some(|groups| - 1)
    else IndexOfLocation(groups[..|groups| - 1], loc)
  }

  /** One more row: the reference grouping changes exactly as the loop's
      step changes it. */
  lemma {:induction false} GroupedStep(rows: seq<StoredChemical>, c: StoredChemical)
    ensures Grouped(rows + [c]) == AddRow(Grouped(rows), c)
  {
    var rows' := rows + [c];
    assert rows'[..|rows'| - 1] == rows;
    var locs := Locations(rows);
    var g, g' := Grouped(rows), Grouped(rows');
    LocationsSpec(rows);
    forall i | 0 <= i < |locs| ensures g[i].location == locs[i] {
    }
    match IndexOfLocation(g, c.location)
    case Some(j) =>
      assert Locations(rows') == locs;
      forall i | 0 <= i < |locs|
        ensures g'[i] == g[j := Group(c.location, g[j].members + [MemberOf(c)])][i]
      {
        if i == j {
        } else {
          assert locs[i] != c.location;
        }
      }
    case None =>
      assert c.location !in locs;
      assert Locations(rows') == locs + [c.location];
      MembersAtAbsent(rows, c.location);
      forall i | 0 <= i < |locs| + 1 ensures g'[i] == (g + [Group(c.location, [MemberOf(c)])])[i] {
      }
  }

  /* ------------------------------------------------------------ grouping */

  /** The grouping loop over the query's rows. */
  method GroupByLocation(rows: seq<StoredChemical>) returns (groups: seq<Group>)
    ensures groups == Grouped(rows)
  {
    groups := [];
    var i := 0;
    while i < |rows|
      invariant 0 <= i <= |rows|
      invariant groups == Grouped(rows[..i])
    {
      GroupedStep(rows[..i], rows[i]);
      assert rows[..i + 1] == rows[..i] + [rows[i]];
      groups := AddRow(groups, rows[i]);
      i := i + 1;
    }
    assert rows[..i] == rows;
  }

  /* ------------------------------------------------------------ warnings */

  function ClassesPresent(g: Group): set<string> {
    set m | m in g.members :: m.storageClass
  }

  function Names(g: Group): (names: seq<string>)
    ensures |names| == |g.members|
    ensures forall k :: 0 <= k < |names| ==> names[k] == g.members[k].name
  {
    seq(|g.members|, k requires 0 <= k < |g.members| => g.members[k].name)
  }

  /** Python truthiness of `classes_present & set_a and classes_present & set_b`. */
  predicate Triggers(g: Group, rule: Rule) {
    ClassesPresent(g) * rule.classesA != {} && ClassesPresent(g) * rule.classesB != {}
  }

  /** The warnings for one location, in rule order. */
  function GroupWarnings(g: Group, rules: seq<Rule>): seq<Warning> {
    if rules == [] then []
    else
      (if Triggers(g, rules[0]) then [Warning(g.location, rules[0].message, Names(g))] else [])
      + GroupWarnings(g, rules[1..])
  }

  /** The warnings for every location, locations in order. */
  function Warnings(groups: seq<Group>, rules: seq<Rule>): seq<Warning> {
    if groups == [] then []
    else GroupWarnings(groups[0], rules) + Warnings(groups[1..], rules)
  }

  lemma {:induction false} GroupWarningsSpec(g: Group, rules: seq<Rule>, w: Warning)
    ensures w in GroupWarnings(g, rules) <==>
            exists k :: 0 <= k < |rules| && Triggers(g, rules[k])
                        && w == Warning(g.location, rules[k].message, Names(g))
    decreases |rules|
  {
    if rules != [] {
      GroupWarningsSpec(g, rules[1..], w);
      if w in GroupWarnings(g, rules[1..]) {
        var k :| 0 <= k < |rules[1..]| && Triggers(g, rules[1..][k])
                 && w == Warning(g.location, rules[1..][k].message, Names(g));
        assert rules[k + 1] == rules[1..][k];
      }
      if exists k :: 0 <= k < |rules| && Triggers(g, rules[k])
                     && w == Warning(g.location, rules[k].message, Names(g)) {
        var k :| 0 <= k < |rules| && Triggers(g, rules[k])
                 && w == Warning(g.location, rules[k].message, Names(g));
        if k > 0 {
          assert rules[1..][k - 1] == rules[k];
        }
      }
    }
  }

  /** A warning is reported exactly for a location whose classes meet both
      sides of a rule, with that rule's message and all of the location's
      chemical names. */
  lemma {:induction false} WarningsSpec(groups: seq<Group>, rules: seq<Rule>, w: Warning)
    ensures w in Warnings(groups, rules) <==>
            exists i, k :: 0 <= i < |groups| && 0 <= k < |rules| && Triggers(groups[i], rules[k])
                           && w == Warning(groups[i].location, rules[k].message, Names(groups[i]))
    decreases |groups|
  {
    if groups != [] {
      WarningsSpec(groups[1..], rules, w);
      GroupWarningsSpec(groups[0], rules, w);
      if w in Warnings(groups[1..], rules) {
        var i, k :| 0 <= i < |groups[1..]| && 0 <= k < |rules| && Triggers(groups[1..][i], rules[k])
                    && w == Warning(groups[1..][i].location, rules[k].message, Names(groups[1..][i]));
        assert groups[i + 1] == groups[1..][i];
      }
      if exists i, k :: 0 <= i < |groups| && 0 <= k < |rules| && Triggers(groups[i], rules[k])
                        && w == Warning(groups[i].location, rules[k].message, Names(groups[i])) {
        var i, k :| 0 <= i < |groups| && 0 <= k < |rules| && Triggers(groups[i], rules[k])
                    && w == Warning(groups[i].location, rules[k].message, Names(groups[i]));
        if i > 0 {
          assert groups[1..][i - 1] == groups[i];
        }
      }
    }
  }

  predicate Holds(g: Group, storageClass: string) {
    exists m :: m in g.members && m.storageClass == storageClass
  }

  /** The two fixed rules, stated on the chemicals a location holds. */
  lemma {:induction false} IncompatibleLocation(g: Group)
    ensures GroupWarnings(g, IncompatiblePairs)
            == (if Holds(g, Flammable) && Holds(g, Oxidizer)
                then [Warning(g.location, FireRisk, Names(g))] else [])
               + (if Holds(g, Corrosive) && Holds(g, Flammable)
                  then [Warning(g.location, ReactionRisk, Names(g))] else [])
  {
    var rules := IncompatiblePairs;
    assert rules[1..][1..] == [];
    var present := ClassesPresent(g);
    forall cls ensures cls in present <==> Holds(g, cls) {
      if Holds(g, cls) {
        var m :| m in g.members && m.storageClass == cls;
      }
    }
    MeetsSingleton(present, Flammable);
    MeetsSingleton(present, Oxidizer);
    MeetsSingleton(present, Corrosive);
    var w0 := if Triggers(g, rules[0]) then [Warning(g.location, FireRisk, Names(g))] else [];
    var w1 := if Triggers(g, rules[1]) then [Warning(g.location, ReactionRisk, Names(g))] else [];
    assert rules[1..][0] == rules[1];
    assert GroupWarnings(g, rules[1..]) == w1 + GroupWarnings(g, rules[1..][1..]);
    assert GroupWarnings(g, rules) == w0 + (w1 + []);
  }

  lemma {:induction false} MeetsSingleton(s: set<string>, x: string)
    ensures s * {x} != {} <==> x in s
  {
    if x in s {
      assert x in s * {x};
    }
  }

  /* -------------------------------------------------------------- report */

  /** `check_compatibility` after its query. */
  method CheckCompatibility(rows: seq<StoredChemical>) returns (report: Report)
    ensures report.locations == Grouped(Located(rows))
    ensures report.warnings == Warnings(report.locations, IncompatiblePairs)
    ensures report.totalChemicals == |Located(rows)|
    ensures report.totalLocations == |Locations(Located(rows))|
  {
    var chemicals := Located(rows);
    var locations := GroupByLocation(chemicals);
    report := Report(locations, Warnings(locations, IncompatiblePairs), |chemicals|, |locations|);
  }

  /* ---------------------------------------------------------- partitions */

  function MemberTotal(groups: seq<Group>): nat {
    if groups == [] then 0 else |groups[0].members| + MemberTotal(groups[1..])
  }

  lemma {:induction false} MemberTotalAppend(a: seq<Group>, b: seq<Group>)
    ensures MemberTotal(a + b) == MemberTotal(a) + MemberTotal(b)
    decreases |a|
  {
    if a == [] {
      assert a + b == b;
    } else {
      assert (a + b)[1..] == a[1..] + b;
      MemberTotalAppend(a[1..], b);
    }
  }

  lemma {:induction false} MemberTotalUpdate(groups: seq<Group>, j: nat, g: Group)
    requires j < |groups|
    ensures MemberTotal(groups[j := g]) + |groups[j].members| == MemberTotal(groups) + |g.members|
    decreases |groups|
  {
    if j > 0 {
      assert groups[j := g][1..] == groups[1..][j - 1 := g];
      MemberTotalUpdate(groups[1..], j - 1, g);
    }
  }

  /** Every chemical lands in exactly one group: the group sizes add up to
      the chemical count. */
  lemma {:induction false} GroupsPartitionRows(rows: seq<StoredChemical>)
    ensures MemberTotal(Grouped(rows)) == |rows|
    decreases |rows|
  {
    if rows != [] {
      var front := rows[..|rows| - 1];
      var c := rows[|rows| - 1];
      assert rows == front + [c];
      GroupsPartitionRows(front);
      GroupedStep(front, c);
      var g := Grouped(front);
      match IndexOfLocation(g, c.location)
      case Some(j) =>
        MemberTotalUpdate(g, j, Group(c.location, g[j].members + [MemberOf(c)]));
      case None =>
        MemberTotalAppend(g, [Group(c.location, [MemberOf(c)])]);
        assert [Group(c.location, [MemberOf(c)])][1..] == [];
    }
  }
}
