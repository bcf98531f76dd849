/** Expanding a compact model gives the model back, with its element IDs renamed one to one. */
module CompactProofs {
  import opened Results
  import opened CompactRefs

  // ---- The adapter that reads a compact model ----

  function AfterColon(s: string): string {
    if s == "" then "" else if s[0] == ':' then s[1..] else AfterColon(s[1..])
  }

  /** The stand-in ID of an element, from its type and the part of its ref behind the tag. */
  function Provisional(g: Group, ref: string): string {
    "ref_" + Prefix(g) + ":" + (if ':' in ref then AfterColon(ref) else ref)
  }

  predicate IsCompactRow(row: Row) {
    "ref" in row && row["ref"].Text?
  }

  datatype Claims = Claims(ids: map<string, string>, ambiguous: set<string>)

  /** The ID that each ref names, and the refs that more than one element claims. */
  function ClaimAll(claims: Claims, elements: seq<Element>): Claims
    requires forall e | e in elements :: IsCompactRow(e.row)
    decreases |elements|
  {
    if elements == [] then claims
    else
      assert IsCompactRow(elements[0].row);
      var ref := elements[0].row["ref"].s;
      ClaimAll(if ref in claims.ids then claims.(ambiguous := claims.ambiguous + {ref})
               else claims.(ids := claims.ids[ref := Provisional(elements[0].group, ref)]), elements[1..])
  }

  function Bound(claims: Claims): map<string, string> {
    claims.ids - claims.ambiguous
  }

  predicate IsEndpointGroup(g: Group) { g == ExternalEntities || g == Processes || g == DataStores }

  /** The refs of zoned elements that carry the slug of `endpoint`. */
  function SlugMatches(endpoint: string, elements: seq<Element>): seq<string>
    requires forall e | e in elements :: IsCompactRow(e.row)
  {
    if elements == [] then []
    else
      var e := elements[0];
      assert IsCompactRow(e.row);
      (if IsEndpointGroup(e.group) && AfterColon(e.row["ref"].s) == AfterColon(endpoint) then [e.row["ref"].s] else [])
      + SlugMatches(endpoint, elements[1..])
  }

  /** A flow endpoint that names no element follows the one zoned element of its slug. */
  function Follow(endpoint: string, claims: Claims, elements: seq<Element>): string
    requires forall e | e in elements :: IsCompactRow(e.row)
  {
    if endpoint in claims.ids || !(2 <= |endpoint| && endpoint[1] == ':' && endpoint[0] in "eps") then endpoint
    else if |SlugMatches(endpoint, elements)| == 1 then SlugMatches(endpoint, elements)[0]
    else endpoint
  }

  function Resolve(ref: string, claims: Claims): string {
    if ref in Bound(claims) then Bound(claims)[ref] else ref
  }

  predicate IsEndpoint(field: string) { field == "source" || field == "destination" }

  predicate IsReference(field: string) { field in REFERENCE_FIELDS }

  const OMITTABLE := {"assets", "description", "source_excerpt", "source_label", "source_speaker", "notes"}

  /** The row with the default of each field that it leaves out. */
  function Restored(row: Row): Row {
    map field | field in row.Keys + OMITTABLE :: if field in row then row[field] else Default(field).value
  }

  function ExpandField(field: string, value: Value, claims: Claims, elements: seq<Element>): Value
    requires forall e | e in elements :: IsCompactRow(e.row)
  {
    if value.List? || !IsReference(field) then value
    else if IsEndpoint(field) then Text(Resolve(Follow(value.s, claims, elements), claims))
    else Text(Resolve(value.s, claims))
  }

  function ExpandRow(e: Element, claims: Claims, elements: seq<Element>): Row
    requires IsCompactRow(e.row) && forall f | f in elements :: IsCompactRow(f.row)
  {
    var full := Restored(e.row);
    (map field | field in full && field != "ref" :: ExpandField(field, full[field], claims, elements))
      ["id" := Text(Provisional(e.group, e.row["ref"].s))]
  }

  predicate IsCompactModel(c: Model) {
    forall g, i | g in c.groups && 0 <= i < |c.groups[g]| :: IsCompactRow(c.groups[g][i])
  }

  lemma {:induction false} CompactElements(c: Model, groups: seq<Group>)
    requires IsCompactModel(c)
    ensures forall e | e in Elements(c, groups) :: IsCompactRow(e.row)
  {
    if groups != [] { CompactElements(c, groups[1..]); }
  }

  function Expand(c: Model): Model
    requires IsCompactModel(c)
  {
    CompactElements(c, GROUPS);
    var elements := Elements(c, GROUPS);
    var claims := ClaimAll(Claims(map[], {}), elements);
    Model(map g | g in GROUPS :: ExpandRows(g, c.Rows(g), claims, elements),
          seq(|c.assumptions|, i requires 0 <= i < |c.assumptions| => c.assumptions[i].(element := Resolve(c.assumptions[i].element, claims))))
  }

  function ExpandRows(g: Group, rows: seq<Row>, claims: Claims, elements: seq<Element>): seq<Row>
    requires (forall row | row in rows :: IsCompactRow(row)) && forall f | f in elements :: IsCompactRow(f.row)
  {
    seq(|rows|, i requires 0 <= i < |rows| => ExpandRow(Element(g, rows[i]), claims, elements))
  }

  // ---- The refs ----

  function Id(e: Element): string
    requires IsElement(e.row)
  {
    e.row["id"].s
  }

  ghost function Ids(elements: seq<Element>): set<string>
    requires forall e | e in elements :: IsElement(e.row)
  {
    set e | e in elements :: Id(e)
  }

  ghost predicate DistinctIds(elements: seq<Element>)
    requires forall e | e in elements :: IsElement(e.row)
  {
    elements == [] ||
    (assert elements[0] in elements && forall e | e in elements[1..] :: e in elements;
     Id(elements[0]) !in Ids(elements[1..]) && DistinctIds(elements[1..]))
  }

  ghost predicate OneToOne(refs: map<string, string>) {
    forall a, b | a in refs && b in refs && refs[a] == refs[b] :: a == b
  }

  predicate HasTag(g: Group, ref: string) { 2 <= |ref| && ref[0] == Tag(g) && ref[1] == ':' }

  ghost predicate Sound(names: Names) {
    OneToOne(names.refs) && forall id | id in names.refs :: names.refs[id] in names.taken
  }

  lemma CandidateTag(g: Group, slug: string, k: nat)
    ensures HasTag(g, Candidate(Base(g, slug), k))
  {
  }

  /** Each of the elements has a ref with the tag of its type. */
  ghost predicate Tags(refs: map<string, string>, elements: seq<Element>)
    requires forall e | e in elements :: IsElement(e.row)
  {
    forall e | e in elements :: Id(e) in refs && HasTag(e.group, refs[Id(e)])
  }

  ghost predicate Extends(refs: map<string, string>, end: map<string, string>) {
    forall id | id in refs :: id in end && end[id] == refs[id]
  }

  /** Each element gets a ref of its own, with the tag of its type. */
  lemma {:induction false} NamesAreFresh(names: Names, elements: seq<Element>, slug: string -> string)
    requires (forall e | e in elements :: IsElement(e.row)) && Sound(names) && DistinctIds(elements)
    requires Ids(elements) !! names.refs.Keys && NameAll(names, elements, slug).Ok?
    ensures var end := NameAll(names, elements, slug).value;
            && Sound(end) && Extends(names.refs, end.refs) && Tags(end.refs, elements)
            && end.refs.Keys == names.refs.Keys + Ids(elements)
    decreases |elements|
  {
    if elements != [] {
      var e, rest := elements[0], elements[1..];
      assert elements == [e] + rest;
      var next := NextNames(names, e, slug);
      assert Ids(elements) == {Id(e)} + Ids(rest);
      NamesAreFresh(next, rest, slug);
    }
  }

  lemma NextNames(names: Names, e: Element, slug: string -> string) returns (next: Names)
    requires IsElement(e.row) && Sound(names) && Id(e) !in names.refs && NameOne(names, e, slug).Ok?
    ensures next == NameOne(names, e, slug).value
    ensures Sound(next) && Extends(names.refs, next.refs)
    ensures next.refs.Keys == names.refs.Keys + {Id(e)} && HasTag(e.group, next.refs[Id(e)])
  {
    next := NameOne(names, e, slug).value;
    var s := slug(e.row["name"].s);
    var n := FirstFreeIs(Base(e.group, s), names.taken, 0);
    CandidateTag(e.group, s, n);
  }

  /** The letter, a colon and the slug of the name; or that with a hyphen and a number from two on. */
  ghost predicate IsRefOf(g: Group, slug: string, ref: string) {
    var letter := match g case ExternalEntities => "e" case Processes => "p" case DataStores => "s" case DataFlows => "f" case TrustBoundaries => "b";
    ref == letter + ":" + slug || exists n | 2 <= n :: ref == letter + ":" + slug + "-" + Decimal(n)
  }

  lemma CandidateIsRef(g: Group, slug: string, k: nat)
    ensures IsRefOf(g, slug, Candidate(Base(g, slug), k))
  {
    if k > 0 { assert Candidate(Base(g, slug), k) == Base(g, slug) + "-" + Decimal(k + 1); }
  }

  /** Each assumption keeps its words and names its element by the ref; or the first whose element has none is reported. */
  lemma {:induction false} CompactAssumptionsAre(refs: map<string, string>, entries: seq<Assumption>)
    ensures match CompactAssumptions(refs, entries)
            case Ok(all) =>
              |all| == |entries| && forall i | 0 <= i < |all| ::
                && all[i].assumption == entries[i].assumption && all[i].attribute == entries[i].attribute && all[i].basis == entries[i].basis
                && entries[i].element in refs && all[i].element == refs[entries[i].element]
            case Err(error) =>
              exists i | 0 <= i < |entries| ::
                && error == Unresolved(Text(entries[i].element)) && entries[i].element !in refs
                && forall k | 0 <= k < i :: entries[k].element in refs
  {
    if entries != [] {
      var n := |entries| - 1;
      CompactAssumptionsAre(refs, entries[..n]);
      assert forall i | 0 <= i < n :: entries[..n][i] == entries[i];
    }
  }

  /** Each element's ref is made of the letter of its type and the slug of its own name. */
  lemma {:induction false} RefsAreSlugs(names: Names, elements: seq<Element>, slug: string -> string)
    requires (forall e | e in elements :: IsElement(e.row)) && Sound(names) && DistinctIds(elements)
    requires Ids(elements) !! names.refs.Keys && NameAll(names, elements, slug).Ok?
    ensures var end := NameAll(names, elements, slug).value;
            forall e | e in elements :: Id(e) in end.refs && slug(e.row["name"].s) != "" && IsRefOf(e.group, slug(e.row["name"].s), end.refs[Id(e)])
    decreases |elements|
  {
    if elements != [] {
      var e, rest := elements[0], elements[1..];
      assert elements == [e] + rest;
      var next := NextNames(names, e, slug);
      var n := FirstFreeIs(Base(e.group, slug(e.row["name"].s)), names.taken, 0);
      CandidateIsRef(e.group, slug(e.row["name"].s), n);
      assert Ids(elements) == {Id(e)} + Ids(rest);
      hide NameOne, Candidate, IsRefOf, FirstFree;
      NamesAreFresh(next, rest, slug);
      RefsAreSlugs(next, rest, slug);
    }
  }

  // ---- One row ----

  /** Every reference of the row names an element. */
  predicate Resolves(refs: map<string, string>, row: Row) {
    Refers(refs.Keys, row)
  }

  predicate Refers(ids: set<string>, row: Row) {
    forall field | field in row && IsReference(field) :: row[field].Text? && row[field].s in ids
  }

  /** The row with every reference replaced by the ref it names. */
  function Rewritten(refs: map<string, string>, row: Row): Row
    requires Resolves(refs, row)
  {
    map field | field in row :: if IsReference(field) then Text(refs[row[field].s]) else row[field]
  }

  lemma ReferenceFields(field: string)
    ensures IsReference(field) <==> field in REFERENCE_FIELDS
    ensures REFERENCE_FIELDS == ["trust_zone", "source", "destination"]
    ensures forall i, j | 0 <= i < j < 3 :: REFERENCE_FIELDS[i] != REFERENCE_FIELDS[j]
  {
  }

  /** The three assignments in place are one rewriting of the row, and fail where a reference names no element. */
  lemma RewriteIs(refs: map<string, string>, row: Row)
    ensures Rewrite(refs, row, 0).Ok? <==> Resolves(refs, row)
    ensures Resolves(refs, row) ==> Rewrite(refs, row, 0) == Ok(Rewritten(refs, row))
  {
    RewriteFrom(refs, row, row, 0);
  }

  ghost predicate Partly(refs: map<string, string>, row: Row, now: Row, k: nat) {
    && k <= |REFERENCE_FIELDS| && now.Keys == row.Keys
    && (forall field | field in row && field !in REFERENCE_FIELDS[..k] :: now[field] == row[field])
    && (forall field | field in row && field in REFERENCE_FIELDS[..k] ::
          row[field].Text? && row[field].s in refs && now[field] == Text(refs[row[field].s]))
  }

  lemma {:induction false} RewriteFrom(refs: map<string, string>, row: Row, now: Row, k: nat)
    requires Partly(refs, row, now, k)
    ensures Rewrite(refs, now, k).Ok? <==> Resolves(refs, row)
    ensures Resolves(refs, row) ==> Rewrite(refs, now, k) == Ok(Rewritten(refs, row))
    decreases |REFERENCE_FIELDS| - k
  {
    if k == |REFERENCE_FIELDS| {
      assert REFERENCE_FIELDS[..k] == REFERENCE_FIELDS;
      forall field ensures IsReference(field) <==> field in REFERENCE_FIELDS { ReferenceFields(field); }
      assert now == Rewritten(refs, row);
    } else {
      var field := REFERENCE_FIELDS[k];
      ReferenceFields(field);
      assert REFERENCE_FIELDS[..k + 1] == REFERENCE_FIELDS[..k] + [field];
      assert field !in REFERENCE_FIELDS[..k];
      if field !in row {
        RewriteFrom(refs, row, now, k + 1);
      } else if row[field].Text? && row[field].s in refs {
        RewriteFrom(refs, row, now[field := Text(refs[row[field].s])], k + 1);
      }
    }
  }

  /** The field types of the schema, where a left-out field depends on them; and no field takes the place of the ref. */
  predicate Typed(row: Row) {
    && "ref" !in row
    && forall field | field in row && Default(field).Some? :: row[field].List? <==> field == "assets"
  }

  /** The row as the full model reads it, with its defaults; a flow that states no operations has them unknown. */
  function Completed(e: Element): Row {
    var row := Restored(e.row);
    if e.group == DataFlows && "operations" !in row then row["operations" := UNKNOWN] else row
  }

  lemma Fields(field: string)
    ensures field in OMITTABLE <==> Default(field).Some?
    ensures field in OMITTABLE || field == "id" || field == "ref" || field == "operations" ==> !IsReference(field)
    ensures "id" !in OMITTABLE && "ref" !in OMITTABLE && "operations" !in OMITTABLE
    ensures "id" != "ref" && "id" != "operations" && "ref" != "operations"
  {
  }

  lemma CompletedResolves(refs: map<string, string>, e: Element)
    requires Resolves(refs, e.row)
    ensures Resolves(refs, Completed(e))
  {
    forall field | field in Completed(e) && IsReference(field)
      ensures Completed(e)[field].Text? && Completed(e)[field].s in refs
    {
      Fields(field);
    }
  }

  /** The row of an element with its ID and its references renamed. */
  function Renamed(sigma: map<string, string>, e: Element): Row
    requires IsElement(e.row) && Id(e) in sigma && Resolves(sigma, e.row)
  {
    CompletedResolves(sigma, e);
    Rewritten(sigma, Completed(e))["id" := Text(sigma[Id(e)])]
  }

  lemma KeptIs(refs: map<string, string>, e: Element)
    requires IsElement(e.row) && Id(e) in refs && Typed(e.row)
    ensures var row := Kept(e.row)["ref" := Text(refs[Id(e)])];
            && (Resolves(refs, row) <==> Resolves(refs, e.row))
            && (forall field | field in row && field != "ref" :: field in e.row && row[field] == e.row[field])
            && (forall field | field in e.row && field !in row :: field == "id" || (field in OMITTABLE && e.row[field] == Default(field).value))
  {
    var row := Kept(e.row)["ref" := Text(refs[Id(e)])];
    forall field | field in e.row && field !in row
      ensures field == "id" || (field in OMITTABLE && e.row[field] == Default(field).value)
    {
      Fields(field);
    }
    forall field | field in e.row && IsReference(field) ensures field in row && row[field] == e.row[field] {
      Fields(field);
    }
    forall field | field in row && IsReference(field) ensures field in e.row && row[field] == e.row[field] {
      Fields(field);
    }
  }

  function Started(refs: map<string, string>, e: Element): Row
    requires IsElement(e.row) && Id(e) in refs
  {
    Kept(e.row)["ref" := Text(refs[Id(e)])]
  }

  /** A row is refused exactly where a reference of it names no element. */
  lemma RefusedRow(refs: map<string, string>, e: Element)
    requires IsElement(e.row) && Id(e) in refs && Typed(e.row)
    ensures CompactRow(refs, e).Ok? <==> Resolves(refs, e.row)
    ensures Resolves(refs, e.row) ==>
              && Resolves(refs, Started(refs, e))
              && var row := Rewritten(refs, Started(refs, e));
                 CompactRow(refs, e) == Ok(if e.group == DataFlows && "operations" !in row then row["operations" := UNKNOWN] else row)
  {
    KeptIs(refs, e);
    RewriteIs(refs, Started(refs, e));
  }

  /** The fields that a compact row holds: its ref, and each of the row's but its ID and those left at their default. */
  lemma CompactRowOmits(refs: map<string, string>, e: Element, field: string)
    requires IsElement(e.row) && Id(e) in refs && Typed(e.row) && CompactRow(refs, e).Ok?
    ensures field in CompactRow(refs, e).value <==>
              || field == "ref" || (e.group == DataFlows && field == "operations")
              || (field in e.row && field != "id" && !(Default(field).Some? && e.row[field] in {Text(""), List([])}))
  {
    RefusedRow(refs, e);
    KeptIs(refs, e);
    Fields(field);
    Fields("operations");
  }

  /** What one field of the compact row is, once defaults are restored. */
  lemma FieldIs(refs: map<string, string>, e: Element, field: string)
    requires IsElement(e.row) && Id(e) in refs && Typed(e.row) && Resolves(refs, e.row)
    requires CompactRow(refs, e).Ok?
    ensures var full := Restored(CompactRow(refs, e).value);
            && (field in full <==> (field in Completed(e) && field != "id") || field == "ref")
            && (field in full && field != "ref" ==>
                  full[field] == if IsReference(field) then Text(refs[e.row[field].s]) else Completed(e)[field])
  {
    RefusedRow(refs, e);
    KeptIs(refs, e);
    Fields(field);
    Fields("operations");
  }

  // ---- All rows ----

  lemma {:induction false} RowsAre(refs: map<string, string>, g: Group, rows: seq<Row>)
    requires forall row | row in rows :: IsElement(row)
    ensures CompactRows(refs, g, rows).Ok? <==> forall i | 0 <= i < |rows| :: CompactRow(refs, Element(g, rows[i])).Ok?
    ensures CompactRows(refs, g, rows).Ok? ==>
              && |CompactRows(refs, g, rows).value| == |rows|
              && forall i | 0 <= i < |rows| :: CompactRow(refs, Element(g, rows[i])) == Ok(CompactRows(refs, g, rows).value[i])
  {
    if rows != [] {
      var n := |rows| - 1;
      RowsAre(refs, g, rows[..n]);
      assert forall i | 0 <= i < n :: rows[..n][i] == rows[i];
      assert rows[n] in rows;
    }
  }

  ghost predicate DistinctGroups(groups: seq<Group>) {
    forall i, j | 0 <= i < j < |groups| :: groups[i] != groups[j]
  }

  lemma {:induction false} GroupsFail(refs: map<string, string>, m: Model, groups: seq<Group>)
    requires IsModel(m)
    ensures CompactGroups(refs, m, groups).Ok? <==> forall g | g in groups :: CompactRows(refs, g, m.Rows(g)).Ok?
  {
    if groups != [] {
      hide CompactRows;
      var n := |groups| - 1;
      GroupsFail(refs, m, groups[..n]);
      assert groups == groups[..n] + [groups[n]];
    }
  }

  lemma {:induction false} GroupIs(refs: map<string, string>, m: Model, groups: seq<Group>, g: Group)
    requires IsModel(m) && DistinctGroups(groups) && CompactGroups(refs, m, groups).Ok?
    ensures g in CompactGroups(refs, m, groups).value <==> g in groups
    ensures g in groups ==> CompactRows(refs, g, m.Rows(g)) == Ok(CompactGroups(refs, m, groups).value[g])
  {
    if groups != [] {
      hide CompactRows;
      var n := |groups| - 1;
      GroupIs(refs, m, groups[..n], g);
      assert groups == groups[..n] + [groups[n]];
    }
  }

  lemma GroupsAre(refs: map<string, string>, m: Model, groups: seq<Group>)
    requires IsModel(m) && DistinctGroups(groups)
    ensures CompactGroups(refs, m, groups).Ok? <==> forall g | g in groups :: CompactRows(refs, g, m.Rows(g)).Ok?
    ensures CompactGroups(refs, m, groups).Ok? ==>
              && CompactGroups(refs, m, groups).value.Keys == (set g | g in groups)
              && forall g | g in groups :: CompactRows(refs, g, m.Rows(g)) == Ok(CompactGroups(refs, m, groups).value[g])
  {
    hide CompactRows, CompactGroups;
    GroupsFail(refs, m, groups);
    if CompactGroups(refs, m, groups).Ok? {
      forall g ensures g in CompactGroups(refs, m, groups).value <==> g in groups
               ensures g in groups ==> CompactRows(refs, g, m.Rows(g)) == Ok(CompactGroups(refs, m, groups).value[g])
      {
        GroupIs(refs, m, groups, g);
      }
    }
  }

  /** The compact form of each element, in order. */
  function Mapped(refs: map<string, string>, elements: seq<Element>): seq<Element>
    requires forall e | e in elements :: IsElement(e.row) && CompactRow(refs, e).Ok?
  {
    seq(|elements|, i requires 0 <= i < |elements| =>
      assert elements[i] in elements;
      Element(elements[i].group, CompactRow(refs, elements[i]).value))
  }

  lemma {:induction false} ElementsMapped(refs: map<string, string>, m: Model, c: Model, groups: seq<Group>)
    requires IsModel(m)
    requires forall g | g in groups :: CompactRows(refs, g, m.Rows(g)) == Ok(c.Rows(g))
    ensures forall e | e in Elements(m, groups) :: IsElement(e.row) && CompactRow(refs, e).Ok?
    ensures Elements(c, groups) == Mapped(refs, Elements(m, groups))
  {
    if groups != [] {
      var g := groups[0];
      ElementsMapped(refs, m, c, groups[1..]);
      RowsAre(refs, g, m.Rows(g));
      TaggedMapped(refs, g, m.Rows(g), c.Rows(g));
      MappedConcat(refs, Tagged(g, m.Rows(g)), Elements(m, groups[1..]));
    }
  }

  lemma TaggedMapped(refs: map<string, string>, g: Group, rows: seq<Row>, compact: seq<Row>)
    requires (forall row | row in rows :: IsElement(row)) && CompactRows(refs, g, rows) == Ok(compact)
    ensures forall e | e in Tagged(g, rows) :: IsElement(e.row) && CompactRow(refs, e).Ok?
    ensures Tagged(g, compact) == Mapped(refs, Tagged(g, rows))
  {
    RowsAre(refs, g, rows);
  }

  lemma MappedConcat(refs: map<string, string>, a: seq<Element>, b: seq<Element>)
    requires forall e | e in a :: IsElement(e.row) && CompactRow(refs, e).Ok?
    requires forall e | e in b :: IsElement(e.row) && CompactRow(refs, e).Ok?
    ensures Mapped(refs, a + b) == Mapped(refs, a) + Mapped(refs, b)
  {
  }

  // ---- The claims ----

  function Ref(e: Element): string
    requires IsCompactRow(e.row)
  {
    e.row["ref"].s
  }

  ghost function Refs(elements: seq<Element>): set<string>
    requires forall e | e in elements :: IsCompactRow(e.row)
  {
    set e | e in elements :: Ref(e)
  }

  ghost predicate DistinctRefs(elements: seq<Element>)
    requires forall e | e in elements :: IsCompactRow(e.row)
  {
    elements == [] ||
    (assert elements[0] in elements && forall e | e in elements[1..] :: e in elements;
     Ref(elements[0]) !in Refs(elements[1..]) && DistinctRefs(elements[1..]))
  }

  /** Where no two elements share a ref, each ref names its element and none is ambiguous. */
  lemma {:induction false} ClaimsAre(claims: Claims, elements: seq<Element>)
    requires (forall e | e in elements :: IsCompactRow(e.row)) && DistinctRefs(elements) && Refs(elements) !! claims.ids.Keys
    ensures var end := ClaimAll(claims, elements);
            && end.ambiguous == claims.ambiguous && Extends(claims.ids, end.ids)
            && forall e | e in elements :: Ref(e) in end.ids && end.ids[Ref(e)] == Provisional(e.group, Ref(e))
    decreases |elements|
  {
    if elements != [] {
      var e, rest := elements[0], elements[1..];
      assert elements == [e] + rest;
      assert IsCompactRow(e.row);
      assert Refs(elements) == {Ref(e)} + Refs(rest);
      ClaimsAre(claims.(ids := claims.ids[Ref(e) := Provisional(e.group, Ref(e))]), rest);
    }
  }

  ghost predicate Fits(refs: map<string, string>, elements: seq<Element>)
  {
    forall e | e in elements :: IsElement(e.row) && Typed(e.row) && Id(e) in refs && CompactRow(refs, e).Ok?
  }

  lemma MappedRef(refs: map<string, string>, e: Element)
    requires IsElement(e.row) && Typed(e.row) && Id(e) in refs && CompactRow(refs, e).Ok?
    ensures var row := CompactRow(refs, e).value; IsCompactRow(row) && row["ref"].s == refs[Id(e)]
  {
    RefusedRow(refs, e);
    KeptIs(refs, e);
    Fields("ref");
  }

  lemma MappedRefs(refs: map<string, string>, elements: seq<Element>)
    requires Fits(refs, elements)
    ensures forall e | e in Mapped(refs, elements) :: IsCompactRow(e.row)
    ensures Refs(Mapped(refs, elements)) == set id | id in Ids(elements) :: refs[id]
  {
    var mapped := Mapped(refs, elements);
    forall i | 0 <= i < |elements|
      ensures IsCompactRow(mapped[i].row) && Ref(mapped[i]) == refs[Id(elements[i])]
    {
      assert elements[i] in elements;
      MappedRef(refs, elements[i]);
    }
    hide CompactRow, IsCompactRow, Mapped;
    forall id | id in Ids(elements) ensures refs[id] in Refs(mapped) {
      var e :| e in elements && Id(e) == id;
      var i :| 0 <= i < |elements| && elements[i] == e;
      assert mapped[i] in mapped;
    }
    forall ref | ref in Refs(mapped) ensures exists id :: id in Ids(elements) && refs[id] == ref {
      var f :| f in mapped && Ref(f) == ref;
      var i :| 0 <= i < |mapped| && mapped[i] == f;
      assert elements[i] in elements && Id(elements[i]) in Ids(elements);
    }
  }

  lemma {:induction false} MappedDistinct(refs: map<string, string>, elements: seq<Element>)
    requires Fits(refs, elements) && OneToOne(refs) && DistinctIds(elements)
    ensures (forall e | e in Mapped(refs, elements) :: IsCompactRow(e.row)) && DistinctRefs(Mapped(refs, elements))
  {
    MappedRefs(refs, elements);
    if elements != [] {
      var e, rest, mapped := elements[0], elements[1..], Mapped(refs, elements);
      assert e in elements;
      MappedRef(refs, e);
      MappedRefs(refs, rest);
      MappedDistinct(refs, rest);
      assert mapped[0] in mapped && mapped[1..] == Mapped(refs, rest);
    }
  }

  // ---- The renaming ----

  lemma AfterTag(g: Group, ref: string)
    requires HasTag(g, ref)
    ensures Provisional(g, ref) == "ref_" + Prefix(g) + ":" + ref[2..]
  {
    assert AfterColon(ref) == AfterColon(ref[1..]);
    assert ref[1..][1..] == ref[2..];
    assert ref[1] in ref;
  }

  /** Two elements have two stand-in IDs. */
  lemma ProvisionalOneToOne(g: Group, a: string, h: Group, b: string)
    requires HasTag(g, a) && HasTag(h, b) && Provisional(g, a) == Provisional(h, b)
    ensures g == h && a == b
  {
    AfterTag(g, a);
    AfterTag(h, b);
    var s := Provisional(g, a);
    assert s[4] == Prefix(g)[0] == Tag(g) && s[4] == Prefix(h)[0] == Tag(h);
    var n := |"ref_" + Prefix(g) + ":"|;
    assert s[n..] == a[2..] && s[n..] == b[2..];
    assert a == [Tag(g), ':'] + a[2..] && b == [Tag(h), ':'] + b[2..];
  }

  /** `sigma` sends each ID to the stand-in ID that its ref names. */
  ghost predicate Sends(sigma: map<string, string>, refs: map<string, string>, claims: Claims) {
    && claims.ambiguous == {} && sigma.Keys == refs.Keys
    && forall id | id in refs :: refs[id] in claims.ids && sigma[id] == claims.ids[refs[id]]
  }

  lemma ReferenceReads(sigma: map<string, string>, refs: map<string, string>, claims: Claims, elements: seq<Element>, id: string)
    requires (forall e | e in elements :: IsCompactRow(e.row)) && Sends(sigma, refs, claims) && id in refs
    ensures Follow(refs[id], claims, elements) == refs[id] && Resolve(refs[id], claims) == sigma[id]
  {
  }

  /** One row: expanding its compact form gives it back, completed and renamed. */
  lemma RowReadsBack(sigma: map<string, string>, refs: map<string, string>, e: Element, claims: Claims, elements: seq<Element>)
    requires IsElement(e.row) && Typed(e.row) && Id(e) in refs && CompactRow(refs, e).Ok?
    requires (forall f | f in elements :: IsCompactRow(f.row)) && Sends(sigma, refs, claims)
    requires sigma[Id(e)] == Provisional(e.group, refs[Id(e)])
    ensures Resolves(sigma, e.row) && IsCompactRow(CompactRow(refs, e).value)
    ensures ExpandRow(Element(e.group, CompactRow(refs, e).value), claims, elements) == Renamed(sigma, e)
  {
    RefusedRow(refs, e);
    MappedRef(refs, e);
    CompletedResolves(sigma, e);
    var row := CompactRow(refs, e).value;
    var got, want := ExpandRow(Element(e.group, row), claims, elements), Renamed(sigma, e);
    Fields("id");
    Fields("ref");
    forall field ensures field in got <==> field in want { FieldIs(refs, e, field); }
    forall field | field in got ensures got[field] == want[field] {
      FieldIs(refs, e, field);
      if field != "id" && IsReference(field) {
        Fields(field);
        ReferenceReads(sigma, refs, claims, elements, e.row[field].s);
      }
    }
    assert got == want;
  }

  ghost predicate Typeable(m: Model) {
    IsModel(m) && forall g, i | g in m.groups && 0 <= i < |m.groups[g]| :: Typed(m.groups[g][i])
  }

  /** Everything a model refers to is an element of it. */
  ghost predicate Closed(m: Model, ids: set<string>)
    requires IsModel(m)
  {
    && (forall e | e in Elements(m, GROUPS) :: Refers(ids, e.row))
    && forall i | 0 <= i < |m.assumptions| :: m.assumptions[i].element in ids
  }

  function RenamedRows(sigma: map<string, string>, g: Group, rows: seq<Row>): seq<Row>
    requires forall row: Row | row in rows :: IsElement(row) && row["id"].s in sigma && Resolves(sigma, row)
  {
    seq(|rows|, i requires 0 <= i < |rows| => assert rows[i] in rows; Renamed(sigma, Element(g, rows[i])))
  }

  ghost predicate RowsRenamed(sigma: map<string, string>, m: Model, n: Model) {
    && (forall g | g in GROUPS ::
          && (forall row: Row | row in m.Rows(g) :: IsElement(row) && row["id"].s in sigma && Resolves(sigma, row))
          && n.Rows(g) == RenamedRows(sigma, g, m.Rows(g)))
    && |n.assumptions| == |m.assumptions|
    && forall i | 0 <= i < |m.assumptions| ::
         m.assumptions[i].element in sigma && n.assumptions[i] == m.assumptions[i].(element := sigma[m.assumptions[i].element])
  }

  lemma GroupsRenamed(sigma: map<string, string>, m: Model, n: Model)
    requires RowsRenamed(sigma, m, n) && forall g | g in GROUPS :: g in n.groups
    ensures IsRenamed(sigma, m, n)
  {
    hide Renamed, IsElement, Resolves;
  }

  /** The whole model under a renaming of its element IDs; a group that it leaves out comes back empty. */
  ghost predicate IsRenamed(sigma: map<string, string>, m: Model, n: Model) {
    && (forall g | g in GROUPS ::
          && g in n.groups && (g !in m.groups ==> n.groups[g] == [])
          && (g in m.groups ==>
                && (forall row: Row | row in m.groups[g] :: IsElement(row) && row["id"].s in sigma && Resolves(sigma, row))
                && n.groups[g] == RenamedRows(sigma, g, m.groups[g])))
    && |n.assumptions| == |m.assumptions|
    && forall i | 0 <= i < |m.assumptions| ::
         m.assumptions[i].element in sigma && n.assumptions[i] == m.assumptions[i].(element := sigma[m.assumptions[i].element])
  }

  // ---- Main results ----

  lemma {:induction false} NamesOk(names: Names, elements: seq<Element>, slug: string -> string)
    requires forall e | e in elements :: IsElement(e.row)
    ensures NameAll(names, elements, slug).Ok? <==> forall e | e in elements :: slug(e.row["name"].s) != ""
    decreases |elements|
  {
    if elements != [] {
      assert elements == [elements[0]] + elements[1..];
      assert IsElement(elements[0].row);
      match NameOne(names, elements[0], slug)
      case Err(_) =>
      case Ok(next) => NamesOk(next, elements[1..], slug);
    }
  }

  lemma {:induction false} AssumptionsAre(refs: map<string, string>, entries: seq<Assumption>)
    ensures CompactAssumptions(refs, entries).Ok? <==> forall i | 0 <= i < |entries| :: entries[i].element in refs
    ensures CompactAssumptions(refs, entries).Ok? ==>
              && |CompactAssumptions(refs, entries).value| == |entries|
              && forall i | 0 <= i < |entries| ::
                   entries[i].element in refs && CompactAssumptions(refs, entries).value[i] == entries[i].(element := refs[entries[i].element])
  {
    if entries != [] {
      AssumptionsAre(refs, entries[..|entries| - 1]);
    }
  }

  lemma TypedElements(m: Model)
    requires Typeable(m)
    ensures forall e | e in Elements(m, GROUPS) :: IsElement(e.row) && Typed(e.row)
    ensures DistinctGroups(GROUPS)
  {
    ElementsAre(m, GROUPS);
    forall e | e in Elements(m, GROUPS) ensures Typed(e.row) {
      assert e.row in m.Rows(e.group);
    }
  }

  ghost predicate Modelled(m: Model) {
    Typeable(m) && (forall e | e in Elements(m, GROUPS) :: IsElement(e.row)) && DistinctIds(Elements(m, GROUPS))
  }

  /** The refs that a model gives its elements. */
  lemma GivenRefs(m: Model, slug: string -> string) returns (refs: map<string, string>)
    requires Modelled(m) && NameAll(Names(map[], {}), Elements(m, GROUPS), slug).Ok?
    ensures refs == NameAll(Names(map[], {}), Elements(m, GROUPS), slug).value.refs
    ensures refs.Keys == Ids(Elements(m, GROUPS)) && OneToOne(refs) && Tags(refs, Elements(m, GROUPS))
    ensures Compact(m, slug).Ok? <==> CompactGroups(refs, m, GROUPS).Ok? && CompactAssumptions(refs, m.assumptions).Ok?
    ensures Compact(m, slug).Ok? ==>
              && CompactGroups(refs, m, GROUPS) == Ok(Compact(m, slug).value.groups)
              && CompactAssumptions(refs, m.assumptions) == Ok(Compact(m, slug).value.assumptions)
  {
    NamesAreFresh(Names(map[], {}), Elements(m, GROUPS), slug);
    refs := NameAll(Names(map[], {}), Elements(m, GROUPS), slug).value.refs;
  }

  /**
   A model has a compact form exactly where each name has a slug and each
   reference, an unknown placement too, names an element.
   */
  lemma CompactWhenClosed(m: Model, slug: string -> string)
    requires Modelled(m)
    ensures Compact(m, slug).Ok? <==>
              && (forall e | e in Elements(m, GROUPS) :: slug(e.row["name"].s) != "")
              && Closed(m, Ids(Elements(m, GROUPS)))
  {
    var elements := Elements(m, GROUPS);
    NamesOk(Names(map[], {}), elements, slug);
    if NameAll(Names(map[], {}), elements, slug).Ok? {
      var refs := GivenRefs(m, slug);
      GroupsOk(refs, m);
      AssumptionsAre(refs, m.assumptions);
    }
  }

  lemma GroupsOk(refs: map<string, string>, m: Model)
    requires Typeable(m) && forall e | e in Elements(m, GROUPS) :: IsElement(e.row) && Id(e) in refs
    ensures CompactGroups(refs, m, GROUPS).Ok? <==> forall e | e in Elements(m, GROUPS) :: Refers(refs.Keys, e.row)
  {
    TypedElements(m);
    ElementsAre(m, GROUPS);
    GroupsAre(refs, m, GROUPS);
    forall g | g in GROUPS
      ensures CompactRows(refs, g, m.Rows(g)).Ok? <==> forall row | row in m.Rows(g) :: Refers(refs.Keys, row)
    {
      RowsAre(refs, g, m.Rows(g));
      forall row | row in m.Rows(g) ensures CompactRow(refs, Element(g, row)).Ok? <==> Refers(refs.Keys, row) {
        assert Element(g, row) in Elements(m, GROUPS);
        RefusedRow(refs, Element(g, row));
      }
    }
  }

  /**
   The compact form loses nothing: expanding it gives the model back, every
   field and every reference, under a renaming of the element IDs that keeps
   two elements apart.
   */
  lemma CompactIsFaithful(m: Model, slug: string -> string) returns (sigma: map<string, string>)
    requires Modelled(m) && Compact(m, slug).Ok?
    ensures sigma.Keys == Ids(Elements(m, GROUPS)) && OneToOne(sigma)
    ensures IsCompactModel(Compact(m, slug).value)
    ensures IsRenamed(sigma, m, Expand(Compact(m, slug).value))
  {
    var c := Compact(m, slug).value;
    var refs := GivenRefs(m, slug);
    CompactModelRows(refs, m, c);
    var claims := ClaimedRefs(refs, m, c);
    sigma := SigmaOf(refs, Elements(m, GROUPS), claims);
    ExpandsRenamed(sigma, refs, m, c, claims);
    GroupsRenamed(sigma, m, Expand(c));
  }

  lemma ClaimedRefs(refs: map<string, string>, m: Model, c: Model) returns (claims: Claims)
    requires Modelled(m) && refs.Keys == Ids(Elements(m, GROUPS)) && OneToOne(refs) && IsCompactModel(c)
    requires CompactGroups(refs, m, GROUPS) == Ok(c.groups)
    ensures (forall e | e in Elements(c, GROUPS) :: IsCompactRow(e.row)) && claims == ClaimAll(Claims(map[], {}), Elements(c, GROUPS))
    ensures claims.ambiguous == {} && Fits(refs, Elements(m, GROUPS))
    ensures forall e | e in Mapped(refs, Elements(m, GROUPS)) ::
              IsCompactRow(e.row) && Ref(e) in claims.ids && claims.ids[Ref(e)] == Provisional(e.group, Ref(e))
  {
    TypedElements(m);
    CompactElements(c, GROUPS);
    GroupsAre(refs, m, GROUPS);
    ElementsMapped(refs, m, c, GROUPS);
    MappedDistinct(refs, Elements(m, GROUPS));
    claims := ClaimAll(Claims(map[], {}), Elements(c, GROUPS));
    ClaimsAre(Claims(map[], {}), Elements(c, GROUPS));
  }

  lemma CompactModelRows(refs: map<string, string>, m: Model, c: Model)
    requires Typeable(m) && forall e | e in Elements(m, GROUPS) :: IsElement(e.row) && Id(e) in refs
    requires CompactGroups(refs, m, GROUPS) == Ok(c.groups)
    ensures IsCompactModel(c)
  {
    TypedElements(m);
    ElementsAre(m, GROUPS);
    GroupsAre(refs, m, GROUPS);
    forall g, i | g in c.groups && 0 <= i < |c.groups[g]| ensures IsCompactRow(c.groups[g][i]) {
      RowsAre(refs, g, m.Rows(g));
      var e := Element(g, m.Rows(g)[i]);
      assert e in Elements(m, GROUPS);
      MappedRef(refs, e);
    }
  }

  lemma SigmaOf(refs: map<string, string>, elements: seq<Element>, claims: Claims) returns (sigma: map<string, string>)
    requires Fits(refs, elements) && OneToOne(refs) && Tags(refs, elements) && refs.Keys == Ids(elements)
    requires claims.ambiguous == {} && forall e | e in Mapped(refs, elements) ::
               IsCompactRow(e.row) && Ref(e) in claims.ids && claims.ids[Ref(e)] == Provisional(e.group, Ref(e))
    ensures Sends(sigma, refs, claims) && OneToOne(sigma)
    ensures forall e | e in elements :: sigma[Id(e)] == Provisional(e.group, refs[Id(e)])
  {
    forall e | e in elements
      ensures refs[Id(e)] in claims.ids && claims.ids[refs[Id(e)]] == Provisional(e.group, refs[Id(e)])
    {
      MappedRef(refs, e);
      var i :| 0 <= i < |elements| && elements[i] == e;
      assert Mapped(refs, elements)[i] in Mapped(refs, elements);
    }
    sigma := map id | id in refs :: claims.ids[refs[id]];
    forall a, b | a in sigma && b in sigma && sigma[a] == sigma[b] ensures a == b {
      var e :| e in elements && Id(e) == a;
      var f :| f in elements && Id(f) == b;
      ProvisionalOneToOne(e.group, refs[a], f.group, refs[b]);
    }
  }

  lemma ExpandsGroup(sigma: map<string, string>, refs: map<string, string>, g: Group, rows: seq<Row>, compact: seq<Row>, claims: Claims, elements: seq<Element>)
    requires forall i | 0 <= i < |rows| ::
               IsElement(rows[i]) && Typed(rows[i]) && rows[i]["id"].s in refs && rows[i]["id"].s in sigma && sigma[rows[i]["id"].s] == Provisional(g, refs[rows[i]["id"].s])
    requires Sends(sigma, refs, claims) && (forall f | f in elements :: IsCompactRow(f.row))
    requires (forall row | row in rows :: IsElement(row)) && CompactRows(refs, g, rows) == Ok(compact)
    ensures forall row: Row | row in rows :: IsElement(row) && row["id"].s in sigma && Resolves(sigma, row)
    ensures forall row | row in compact :: IsCompactRow(row)
    ensures ExpandRows(g, compact, claims, elements) == RenamedRows(sigma, g, rows)
  {
    RowsAre(refs, g, rows);
    forall i | 0 <= i < |rows|
      ensures Resolves(sigma, rows[i]) && IsCompactRow(compact[i])
      ensures ExpandRow(Element(g, compact[i]), claims, elements) == Renamed(sigma, Element(g, rows[i]))
    {
      RowReadsBack(sigma, refs, Element(g, rows[i]), claims, elements);
    }
  }

  lemma ExpandsRenamed(sigma: map<string, string>, refs: map<string, string>, m: Model, c: Model, claims: Claims)
    requires Typeable(m) && Fits(refs, Elements(m, GROUPS)) && IsCompactModel(c) && Sends(sigma, refs, claims)
    requires CompactGroups(refs, m, GROUPS) == Ok(c.groups) && CompactAssumptions(refs, m.assumptions) == Ok(c.assumptions)
    requires (forall e | e in Elements(c, GROUPS) :: IsCompactRow(e.row)) && claims == ClaimAll(Claims(map[], {}), Elements(c, GROUPS))
    requires forall e | e in Elements(m, GROUPS) :: sigma[Id(e)] == Provisional(e.group, refs[Id(e)])
    ensures RowsRenamed(sigma, m, Expand(c))
  {
    TypedElements(m);
    ElementsAre(m, GROUPS);
    GroupsAre(refs, m, GROUPS);
    forall g | g in GROUPS
      ensures forall row: Row | row in m.Rows(g) :: IsElement(row) && row["id"].s in sigma && Resolves(sigma, row)
      ensures Expand(c).Rows(g) == RenamedRows(sigma, g, m.Rows(g))
    {
      forall i | 0 <= i < |m.Rows(g)|
        ensures var row := m.Rows(g)[i]; IsElement(row) && Typed(row) && row["id"].s in refs && sigma[row["id"].s] == Provisional(g, refs[row["id"].s])
      {
        var e := Element(g, m.Rows(g)[i]);
        assert e in Elements(m, GROUPS);
      }
      ExpandsGroup(sigma, refs, g, m.Rows(g), c.Rows(g), claims, Elements(c, GROUPS));
    }
    ExpandsAssumptions(sigma, refs, m, c, claims);
  }

  lemma ExpandsAssumptions(sigma: map<string, string>, refs: map<string, string>, m: Model, c: Model, claims: Claims)
    requires IsCompactModel(c) && Sends(sigma, refs, claims) && CompactAssumptions(refs, m.assumptions) == Ok(c.assumptions)
    requires (forall e | e in Elements(c, GROUPS) :: IsCompactRow(e.row)) && claims == ClaimAll(Claims(map[], {}), Elements(c, GROUPS))
    ensures |Expand(c).assumptions| == |m.assumptions|
    ensures forall i | 0 <= i < |m.assumptions| ::
              m.assumptions[i].element in sigma && Expand(c).assumptions[i] == m.assumptions[i].(element := sigma[m.assumptions[i].element])
  {
    AssumptionsAre(refs, m.assumptions);
    forall i | 0 <= i < |m.assumptions|
      ensures m.assumptions[i].element in sigma && Expand(c).assumptions[i] == m.assumptions[i].(element := sigma[m.assumptions[i].element])
    {
      ReferenceReads(sigma, refs, claims, Elements(c, GROUPS), m.assumptions[i].element);
    }
  }
}
