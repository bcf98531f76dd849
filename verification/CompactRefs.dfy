/**
 The compact form of a System Model: each element gets a fresh typed ref, every
 reference to it is rewritten, and fields that hold their default are left out.
 */
module CompactRefs {
  import opened Results

  datatype Group = ExternalEntities | Processes | DataStores | DataFlows | TrustBoundaries

  const GROUPS := [ExternalEntities, Processes, DataStores, DataFlows, TrustBoundaries]

  function Prefix(g: Group): string {
    match g
    case ExternalEntities => "entity"
    case Processes => "process"
    case DataStores => "store"
    case DataFlows => "flow"
    case TrustBoundaries => "boundary"
  }

  /** The first letter of the prefix. */
  function Tag(g: Group): char {
    match g
    case ExternalEntities => 'e'
    case Processes => 'p'
    case DataStores => 's'
    case DataFlows => 'f'
    case TrustBoundaries => 'b'
  }

  datatype Value = Text(s: string) | List(items: seq<string>)

  type Row = map<string, Value>

  datatype Assumption = Assumption(assumption: string, element: string, attribute: string, basis: string)

  /** A model, full or compact: rows by group, and the assumptions about their elements. */
  datatype Model = Model(groups: map<Group, seq<Row>>, assumptions: seq<Assumption>) {
    function Rows(g: Group): seq<Row> { if g in groups then groups[g] else [] }
  }

  datatype CompactError = EmptySlug(name: string) | Unresolved(reference: Value)

  const REFERENCE_FIELDS := ["trust_zone", "source", "destination"]

  const UNKNOWN := Text("unknown")

  /** The default of a field that a compact row may leave out. */
  function Default(field: string): Option<Value> {
    if field == "assets" then Some(List([]))
    else if field in ["description", "source_excerpt", "source_label", "source_speaker", "notes"] then Some(Text(""))
    else None
  }

  predicate IsOmitted(field: string, value: Value) {
    Default(field).Some? && (value == Text("") || value == List([]))
  }

  // ---- Fresh refs ----

  function Digit(n: nat): char
    requires n < 10
  {
    '0' + n as char
  }

  function Decimal(n: nat): string {
    if n < 10 then [Digit(n)] else Decimal(n / 10) + [Digit(n % 10)]
  }

  /** The ref tried after `k` that were taken: the base, then `base-2`, `base-3` and so on. */
  function Candidate(base: string, k: nat): string {
    if k == 0 then base else base + "-" + Decimal(k + 1)
  }

  function ValueOf(s: string): nat {
    if s == "" then 0 else ValueOf(s[..|s| - 1]) * 10 + (if '0' <= s[|s| - 1] <= '9' then (s[|s| - 1] - '0') as nat else 0)
  }

  lemma {:induction false} DecimalReads(n: nat)
    ensures ValueOf(Decimal(n)) == n && Decimal(n) != ""
  {
    if n < 10 {
      assert Decimal(n)[..0] == "";
    } else {
      DecimalReads(n / 10);
      assert Decimal(n)[..|Decimal(n)| - 1] == Decimal(n / 10);
    }
  }

  /** No two candidates of one base are one ref. */
  lemma CandidatesDiffer(base: string, i: nat, j: nat)
    requires Candidate(base, i) == Candidate(base, j)
    ensures i == j
  {
    DecimalReads(i + 1);
    DecimalReads(j + 1);
    if i > 0 && j > 0 {
      assert Candidate(base, i)[|base| + 1..] == Decimal(i + 1);
      assert Candidate(base, j)[|base| + 1..] == Decimal(j + 1);
    }
  }

  ghost function Tried(base: string, k: nat): set<string> {
    set i | 0 <= i < k :: Candidate(base, i)
  }

  lemma {:induction false} TriedCount(base: string, k: nat)
    ensures |Tried(base, k)| == k
  {
    if k > 0 {
      TriedCount(base, k - 1);
      assert Tried(base, k) == Tried(base, k - 1) + {Candidate(base, k - 1)};
      forall i | 0 <= i < k - 1 ensures Candidate(base, i) != Candidate(base, k - 1) {
        if Candidate(base, i) == Candidate(base, k - 1) { CandidatesDiffer(base, i, k - 1); }
      }
    }
  }

  lemma {:induction false} Subset(a: set<string>, b: set<string>)
    requires a <= b
    ensures |a| <= |b|
  {
    assert b == a + (b - a);
  }

  predicate AllTaken(base: string, taken: set<string>, k: nat) {
    forall i | 0 <= i < k :: Candidate(base, i) in taken
  }

  /** At most as many candidates are taken as there are refs. */
  lemma TriesLeft(base: string, taken: set<string>, k: nat)
    requires AllTaken(base, taken, k)
    ensures k <= |taken|
  {
    TriedCount(base, k);
    Subset(Tried(base, k), taken);
  }

  /** The first candidate from the `k`-th that is not taken. */
  function FirstFree(base: string, taken: set<string>, k: nat): (ref: string)
    requires AllTaken(base, taken, k)
    ensures ref !in taken
    decreases |taken| + 1 - k
  {
    TriesLeft(base, taken, k);
    if Candidate(base, k) !in taken then Candidate(base, k) else FirstFree(base, taken, k + 1)
  }

  /** The loop ends within the number of refs already taken, at the first candidate that is free. */
  lemma {:induction false} FirstFreeIs(base: string, taken: set<string>, k: nat) returns (n: nat)
    requires AllTaken(base, taken, k)
    ensures k <= n <= |taken| && FirstFree(base, taken, k) == Candidate(base, n) && AllTaken(base, taken, n)
    decreases |taken| + 1 - k
  {
    TriesLeft(base, taken, k);
    if Candidate(base, k) !in taken {
      n := k;
    } else {
      n := FirstFreeIs(base, taken, k + 1);
    }
  }

  method FreshRef(base: string, taken: set<string>) returns (ref: string)
    ensures ref == FirstFree(base, taken, 0)
  {
    ref := base;
    var suffix: nat := 2;
    ghost var k: nat := 0;
    while ref in taken
      invariant suffix == k + 2 && ref == Candidate(base, k) && AllTaken(base, taken, k)
      invariant FirstFree(base, taken, k) == FirstFree(base, taken, 0)
      decreases |taken| + 1 - k
    {
      TriesLeft(base, taken, k);
      ref := base + "-" + Decimal(suffix);
      suffix := suffix + 1;
      k := k + 1;
    }
  }

  // ---- Naming every element ----

  datatype Element = Element(group: Group, row: Row)

  /** What the code reads of each row. */
  predicate IsElement(row: Row) {
    "id" in row && row["id"].Text? && "name" in row && row["name"].Text?
  }

  predicate IsModel(m: Model) {
    forall g, i | g in m.groups && 0 <= i < |m.groups[g]| :: IsElement(m.groups[g][i])
  }

  /** The refs given so far, by element ID. */
  datatype Names = Names(refs: map<string, string>, taken: set<string>)

  function Base(g: Group, slug: string): string { [Tag(g)] + ":" + slug }

  function NameOne(names: Names, e: Element, slug: string -> string): Result<Names, CompactError>
    requires IsElement(e.row)
  {
    var s := slug(e.row["name"].s);
    if s == "" then Err(EmptySlug(e.row["name"].s))
    else
      var ref := FirstFree(Base(e.group, s), names.taken, 0);
      Ok(Names(names.refs[e.row["id"].s := ref], names.taken + {ref}))
  }

  function NameAll(names: Names, elements: seq<Element>, slug: string -> string): Result<Names, CompactError>
    requires forall e | e in elements :: IsElement(e.row)
    decreases |elements|
  {
    if elements == [] then Ok(names)
    else
      match NameOne(names, elements[0], slug)
      case Err(error) => Err(error)
      case Ok(next) => NameAll(next, elements[1..], slug)
  }

  function Tagged(g: Group, rows: seq<Row>): seq<Element> {
    seq(|rows|, i requires 0 <= i < |rows| => Element(g, rows[i]))
  }

  function Elements(m: Model, groups: seq<Group>): seq<Element> {
    if groups == [] then [] else Tagged(groups[0], m.Rows(groups[0])) + Elements(m, groups[1..])
  }

  lemma {:induction false} ElementsAre(m: Model, groups: seq<Group>)
    requires IsModel(m)
    ensures forall e | e in Elements(m, groups) :: e.group in groups && e.row in m.Rows(e.group) && IsElement(e.row)
    ensures forall g, row | g in groups && row in m.Rows(g) :: Element(g, row) in Elements(m, groups)
  {
    if groups != [] {
      var g := groups[0];
      ElementsAre(m, groups[1..]);
      assert forall e | e in Tagged(g, m.Rows(g)) :: e.group == g && e.row in m.Rows(g);
      forall row | row in m.Rows(g) ensures Element(g, row) in Tagged(g, m.Rows(g)) {
        var i :| 0 <= i < |m.Rows(g)| && m.Rows(g)[i] == row;
        assert Tagged(g, m.Rows(g))[i] == Element(g, row);
      }
    }
  }

  // ---- Rewriting a row ----

  function Kept(row: Row): Row {
    map field | field in row && field != "id" && !IsOmitted(field, row[field]) :: row[field]
  }

  /** The reference fields from the `k`-th on, each value replaced by the ref it names. */
  function Rewrite(refs: map<string, string>, row: Row, k: nat): Result<Row, CompactError>
    requires k <= |REFERENCE_FIELDS|
    decreases |REFERENCE_FIELDS| - k
  {
    if k == |REFERENCE_FIELDS| then Ok(row)
    else
      var field := REFERENCE_FIELDS[k];
      if field !in row then Rewrite(refs, row, k + 1)
      else if !row[field].Text? || row[field].s !in refs then Err(Unresolved(row[field]))
      else Rewrite(refs, row[field := Text(refs[row[field].s])], k + 1)
  }

  function CompactRow(refs: map<string, string>, e: Element): Result<Row, CompactError>
    requires IsElement(e.row)
  {
    if e.row["id"].s !in refs then Err(Unresolved(e.row["id"]))
    else
      match Rewrite(refs, Kept(e.row)["ref" := Text(refs[e.row["id"].s])], 0)
      case Err(error) => Err(error)
      case Ok(row) => Ok(if e.group == DataFlows && "operations" !in row then row["operations" := UNKNOWN] else row)
  }

  function CompactRows(refs: map<string, string>, g: Group, rows: seq<Row>): Result<seq<Row>, CompactError>
    requires forall row | row in rows :: IsElement(row)
  {
    if rows == [] then Ok([])
    else
      var n := |rows| - 1;
      match CompactRows(refs, g, rows[..n])
      case Err(error) => Err(error)
      case Ok(before) =>
        match CompactRow(refs, Element(g, rows[n]))
        case Err(error) => Err(error)
        case Ok(row) => Ok(before + [row])
  }

  function CompactAssumptions(refs: map<string, string>, entries: seq<Assumption>): Result<seq<Assumption>, CompactError> {
    if entries == [] then Ok([])
    else
      var n := |entries| - 1;
      match CompactAssumptions(refs, entries[..n])
      case Err(error) => Err(error)
      case Ok(before) =>
        if entries[n].element !in refs then Err(Unresolved(Text(entries[n].element)))
        else Ok(before + [entries[n].(element := refs[entries[n].element])])
  }

  function CompactGroups(refs: map<string, string>, m: Model, groups: seq<Group>): Result<map<Group, seq<Row>>, CompactError>
    requires IsModel(m)
  {
    if groups == [] then Ok(map[])
    else
      var n := |groups| - 1;
      match CompactGroups(refs, m, groups[..n])
      case Err(error) => Err(error)
      case Ok(before) =>
        match CompactRows(refs, groups[n], m.Rows(groups[n]))
        case Err(error) => Err(error)
        case Ok(rows) => Ok(before[groups[n] := rows])
  }

  function Compact(m: Model, slug: string -> string): Result<Model, CompactError>
    requires IsModel(m)
  {
    ElementsAre(m, GROUPS);
    match NameAll(Names(map[], {}), Elements(m, GROUPS), slug)
    case Err(error) => Err(error)
    case Ok(names) =>
      match CompactGroups(names.refs, m, GROUPS)
      case Err(error) => Err(error)
      case Ok(groups) =>
        match CompactAssumptions(names.refs, m.assumptions)
        case Err(error) => Err(error)
        case Ok(assumptions) => Ok(Model(groups, assumptions))
  }

  // ---- The code's own loops ----

  method NameRows(g: Group, rows: seq<Row>, before: Names, slug: string -> string) returns (result: Result<Names, CompactError>)
    requires forall row | row in rows :: IsElement(row)
    ensures (forall e | e in Tagged(g, rows) :: IsElement(e.row)) && result == NameAll(before, Tagged(g, rows), slug)
  {
    var refs, taken, i := before.refs, before.taken, 0;
    while i < |rows|
      invariant i <= |rows|
      invariant NameAll(Names(refs, taken), Tagged(g, rows[i..]), slug) == NameAll(before, Tagged(g, rows), slug)
    {
      var element := rows[i];
      assert element in rows;
      assert Tagged(g, rows[i..])[0] == Element(g, element) && Tagged(g, rows[i..])[1..] == Tagged(g, rows[i + 1..]);
      var name := slug(element["name"].s);
      if name == "" { return Err(EmptySlug(element["name"].s)); }
      var ref := FreshRef(Base(g, name), taken);
      taken := taken + {ref};
      refs := refs[element["id"].s := ref];
      i := i + 1;
    }
    result := Ok(Names(refs, taken));
  }

  lemma {:induction false} NameAllConcat(names: Names, a: seq<Element>, b: seq<Element>, slug: string -> string)
    requires forall e | e in a + b :: IsElement(e.row)
    ensures NameAll(names, a + b, slug) ==
            match NameAll(names, a, slug)
            case Err(error) => Err(error)
            case Ok(next) => NameAll(next, b, slug)
    decreases |a|
  {
    assert forall e | e in a :: e in a + b;
    assert forall e | e in b :: e in a + b;
    if a == [] {
      assert a + b == b;
    } else {
      assert (a + b)[1..] == a[1..] + b && a[0] in a;
      assert forall e | e in a[1..] :: e in a;
      match NameOne(names, a[0], slug)
      case Err(_) =>
      case Ok(next) => NameAllConcat(next, a[1..], b, slug);
    }
  }

  method GiveRefs(m: Model, slug: string -> string) returns (result: Result<Names, CompactError>)
    requires IsModel(m)
    ensures (forall e | e in Elements(m, GROUPS) :: IsElement(e.row)) && result == NameAll(Names(map[], {}), Elements(m, GROUPS), slug)
  {
    ElementsAre(m, GROUPS);
    var names := Names(map[], {});
    var g := 0;
    while g < |GROUPS|
      invariant g <= |GROUPS| && (forall e | e in Elements(m, GROUPS[g..]) :: IsElement(e.row))
      invariant NameAll(names, Elements(m, GROUPS[g..]), slug) == NameAll(Names(map[], {}), Elements(m, GROUPS), slug)
    {
      var group := GROUPS[g];
      assert GROUPS[g..][0] == group && GROUPS[g..][1..] == GROUPS[g + 1..];
      ElementsAre(m, GROUPS[g + 1..]);
      NameAllConcat(names, Tagged(group, m.Rows(group)), Elements(m, GROUPS[g + 1..]), slug);
      var named := NameRows(group, m.Rows(group), names, slug);
      if named.Err? { return named; }
      names := named.value;
      g := g + 1;
    }
    result := Ok(names);
  }

  method RewriteRows(refs: map<string, string>, g: Group, rows: seq<Row>) returns (result: Result<seq<Row>, CompactError>)
    requires forall row | row in rows :: IsElement(row)
    ensures result == CompactRows(refs, g, rows)
  {
    var out, i := [], 0;
    while i < |rows|
      invariant i <= |rows| && CompactRows(refs, g, rows[..i]) == Ok(out)
    {
      assert rows[..i + 1][..i] == rows[..i];
      CompactRowsPrefix(refs, g, rows, i + 1);
      var row := RewriteRow(refs, Element(g, rows[i]));
      if row.Err? { return Err(row.error); }
      out := out + [row.value];
      i := i + 1;
    }
    assert rows[..i] == rows;
    result := Ok(out);
  }

  method RewriteRow(refs: map<string, string>, e: Element) returns (result: Result<Row, CompactError>)
    requires IsElement(e.row)
    ensures result == CompactRow(refs, e)
  {
    if e.row["id"].s !in refs { return Err(Unresolved(e.row["id"])); }
    var row := Kept(e.row)["ref" := Text(refs[e.row["id"].s])];
    ghost var started := row;
    var k := 0;
    while k < |REFERENCE_FIELDS|
      invariant k <= |REFERENCE_FIELDS| && Rewrite(refs, row, k) == Rewrite(refs, started, 0)
    {
      var field := REFERENCE_FIELDS[k];
      if field in row {
        if !row[field].Text? || row[field].s !in refs { return Err(Unresolved(row[field])); }
        row := row[field := Text(refs[row[field].s])];
      }
      k := k + 1;
    }
    if e.group == DataFlows && "operations" !in row { row := row["operations" := UNKNOWN]; }
    result := Ok(row);
  }

  method RewriteAssumptions(refs: map<string, string>, entries: seq<Assumption>) returns (result: Result<seq<Assumption>, CompactError>)
    ensures result == CompactAssumptions(refs, entries)
  {
    var out, i := [], 0;
    while i < |entries|
      invariant i <= |entries| && CompactAssumptions(refs, entries[..i]) == Ok(out)
    {
      assert entries[..i + 1][..i] == entries[..i];
      CompactAssumptionsPrefix(refs, entries, i + 1);
      var entry := entries[i];
      if entry.element !in refs { return Err(Unresolved(Text(entry.element))); }
      out := out + [entry.(element := refs[entry.element])];
      i := i + 1;
    }
    assert entries[..i] == entries;
    result := Ok(out);
  }

  method AsCompact(m: Model, slug: string -> string) returns (result: Result<Model, CompactError>)
    requires IsModel(m)
    ensures result == Compact(m, slug)
  {
    hide CompactRows, CompactAssumptions, NameAll;
    var named := GiveRefs(m, slug);
    if named.Err? { return Err(named.error); }
    var refs := named.value.refs;
    var compact: map<Group, seq<Row>>, g := map[], 0;
    while g < |GROUPS|
      invariant g <= |GROUPS| && CompactGroups(refs, m, GROUPS[..g]) == Ok(compact)
    {
      assert GROUPS[..g + 1][..g] == GROUPS[..g];
      CompactGroupsPrefix(refs, m, GROUPS, g + 1);
      var rows := RewriteRows(refs, GROUPS[g], m.Rows(GROUPS[g]));
      if rows.Err? { return Err(rows.error); }
      compact := compact[GROUPS[g] := rows.value];
      g := g + 1;
    }
    assert GROUPS[..g] == GROUPS;
    var assumptions := RewriteAssumptions(refs, m.assumptions);
    if assumptions.Err? { return Err(assumptions.error); }
    result := Ok(Model(compact, assumptions.value));
  }

  /** A failure in the rows so far is the failure of all rows. */
  lemma {:induction false} CompactRowsPrefix(refs: map<string, string>, g: Group, rows: seq<Row>, n: nat)
    requires n <= |rows| && forall row | row in rows :: IsElement(row)
    ensures CompactRows(refs, g, rows[..n]).Err? ==> CompactRows(refs, g, rows) == CompactRows(refs, g, rows[..n])
  {
    if n < |rows| {
      var last := |rows| - 1;
      CompactRowsPrefix(refs, g, rows[..last], n);
      assert rows[..last][..n] == rows[..n];
    } else {
      assert rows[..n] == rows;
    }
  }

  lemma {:induction false} CompactGroupsPrefix(refs: map<string, string>, m: Model, groups: seq<Group>, n: nat)
    requires n <= |groups| && IsModel(m)
    ensures CompactGroups(refs, m, groups[..n]).Err? ==> CompactGroups(refs, m, groups) == CompactGroups(refs, m, groups[..n])
  {
    if n < |groups| {
      var last := |groups| - 1;
      CompactGroupsPrefix(refs, m, groups[..last], n);
      assert groups[..last][..n] == groups[..n];
    } else {
      assert groups[..n] == groups;
    }
  }

  lemma {:induction false} CompactAssumptionsPrefix(refs: map<string, string>, entries: seq<Assumption>, n: nat)
    requires n <= |entries|
    ensures CompactAssumptions(refs, entries[..n]).Err? ==> CompactAssumptions(refs, entries) == CompactAssumptions(refs, entries[..n])
  {
    if n < |entries| {
      var last := |entries| - 1;
      CompactAssumptionsPrefix(refs, entries[..last], n);
      assert entries[..last][..n] == entries[..n];
    } else {
      assert entries[..n] == entries;
    }
  }
}
