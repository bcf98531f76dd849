/** What the expansion of any compact model does with refs, also with ones that two elements claim or none does. */
module CompactExpansion {
  import opened CompactRefs
  import opened CompactProofs

  // ---- Stand-in IDs and claims ----

  /** The stand-in ID of an element is the word for its type and the part of its ref behind the colon. */
  lemma StandInIs(g: Group, slug: string)
    ensures var (letter, word) := match g
            case ExternalEntities => ('e', "entity")
            case Processes => ('p', "process")
            case DataStores => ('s', "store")
            case DataFlows => ('f', "flow")
            case TrustBoundaries => ('b', "boundary");
            Provisional(g, [letter, ':'] + slug) == "ref_" + word + ":" + slug
  {
    var ref := [Tag(g), ':'] + slug;
    AfterTag(g, ref);
    assert ref[2..] == slug;
    hide Provisional;
  }

  predicate HasRef(e: Element, ref: string) { "ref" in e.row && e.row["ref"] == Text(ref) }

  ghost predicate Claimed(elements: seq<Element>, ref: string) { exists i | 0 <= i < |elements| :: HasRef(elements[i], ref) }

  ghost predicate ClaimedTwice(elements: seq<Element>, ref: string) {
    exists i, j | 0 <= i < j < |elements| :: HasRef(elements[i], ref) && HasRef(elements[j], ref)
  }

  /** One more element in front: what the claims of the others start from. */
  function Next(claims: Claims, e: Element): Claims
    requires IsCompactRow(e.row)
  {
    var own := e.row["ref"].s;
    if own in claims.ids then claims.(ambiguous := claims.ambiguous + {own})
    else claims.(ids := claims.ids[own := Provisional(e.group, own)])
  }

  lemma {:induction false} ClaimsHold(claims: Claims, elements: seq<Element>, ref: string)
    requires forall e | e in elements :: IsCompactRow(e.row)
    ensures var end := ClaimAll(claims, elements);
            && (ref in end.ids <==> ref in claims.ids || Claimed(elements, ref))
            && (ref in end.ambiguous <==>
                  ref in claims.ambiguous || (ref in claims.ids && Claimed(elements, ref)) || ClaimedTwice(elements, ref))
    decreases |elements|
  {
    if elements != [] {
      var e, rest := elements[0], elements[1..];
      assert IsCompactRow(e.row) && forall f | f in rest :: f in elements;
      assert ClaimAll(claims, elements) == ClaimAll(Next(claims, e), rest);
      ClaimsHold(Next(claims, e), rest, ref);
      ClaimedCons(elements, ref);
      assert HasRef(e, ref) <==> e.row["ref"].s == ref;
      hide ClaimAll, Provisional, Claimed, ClaimedTwice, HasRef;
    }
  }

  lemma {:induction false} ClaimStays(claims: Claims, elements: seq<Element>, ref: string)
    requires (forall e | e in elements :: IsCompactRow(e.row)) && ref in claims.ids
    ensures ref in ClaimAll(claims, elements).ids && ClaimAll(claims, elements).ids[ref] == claims.ids[ref]
    decreases |elements|
  {
    if elements != [] {
      assert elements[0] in elements && forall f | f in elements[1..] :: f in elements;
      ClaimStays(Next(claims, elements[0]), elements[1..], ref);
    }
  }

  /** The first element with the ref gives it its ID. */
  lemma {:induction false} FirstClaims(claims: Claims, elements: seq<Element>, i: nat, ref: string)
    requires (forall e | e in elements :: IsCompactRow(e.row)) && ref !in claims.ids
    requires i < |elements| && HasRef(elements[i], ref) && forall k | 0 <= k < i :: !HasRef(elements[k], ref)
    ensures ref in ClaimAll(claims, elements).ids && ClaimAll(claims, elements).ids[ref] == Provisional(elements[i].group, ref)
    decreases |elements|
  {
    assert elements[0] in elements && forall f | f in elements[1..] :: f in elements;
    hide Provisional;
    if i == 0 {
      ClaimStays(Next(claims, elements[0]), elements[1..], ref);
    } else {
      FirstClaims(Next(claims, elements[0]), elements[1..], i - 1, ref);
    }
  }

  lemma ClaimedCons(elements: seq<Element>, ref: string)
    requires elements != []
    ensures Claimed(elements, ref) <==> HasRef(elements[0], ref) || Claimed(elements[1..], ref)
    ensures ClaimedTwice(elements, ref) <==> (HasRef(elements[0], ref) && Claimed(elements[1..], ref)) || ClaimedTwice(elements[1..], ref)
  {
    var rest := elements[1..];
    hide HasRef;
    forall i | 0 <= i < |rest| ensures rest[i] == elements[i + 1] {}
    if Claimed(elements, ref) && !HasRef(elements[0], ref) {
      var i :| 0 <= i < |elements| && HasRef(elements[i], ref);
      assert rest[i - 1] == elements[i];
    }
    if i, j :| 0 <= i < j < |elements| && HasRef(elements[i], ref) && HasRef(elements[j], ref) {
      assert rest[j - 1] == elements[j];
      if i > 0 { assert rest[i - 1] == elements[i]; }
    }
  }

  /** A ref names the first element that claims it, and it is ambiguous exactly where a second one does. */
  lemma ClaimIs(elements: seq<Element>, ref: string)
    requires forall e | e in elements :: IsCompactRow(e.row)
    ensures var claims := ClaimAll(Claims(map[], {}), elements);
            && (ref in claims.ids <==> Claimed(elements, ref))
            && (ref in claims.ambiguous <==> ClaimedTwice(elements, ref))
            && forall i | 0 <= i < |elements| && HasRef(elements[i], ref) && forall k | 0 <= k < i :: !HasRef(elements[k], ref) ::
                 ref in claims.ids && claims.ids[ref] == Provisional(elements[i].group, ref)
  {
    ClaimsHold(Claims(map[], {}), elements, ref);
    forall i | 0 <= i < |elements| && HasRef(elements[i], ref) && forall k | 0 <= k < i :: !HasRef(elements[k], ref)
      ensures var claims := ClaimAll(Claims(map[], {}), elements);
              ref in claims.ids && claims.ids[ref] == Provisional(elements[i].group, ref)
    {
      FirstClaims(Claims(map[], {}), elements, i, ref);
    }
  }

  // ---- An endpoint that names no element ----

  lemma {:induction false} AfterColonIs(word: string, slug: string)
    requires ':' !in word
    ensures AfterColon(word + ":" + slug) == slug && AfterColon(word) == ""
  {
    if word != "" {
      assert (word + ":" + slug)[1..] == word[1..] + ":" + slug;
      AfterColonIs(word[1..], slug);
    }
  }

  /** A zoned element whose ref has, behind its first colon, what the endpoint has behind its tag. */
  predicate HasSlug(e: Element, endpoint: string)
    requires IsCompactRow(e.row)
  {
    && e.group in {ExternalEntities, Processes, DataStores} && 2 <= |endpoint|
    && AfterColon(e.row["ref"].s) == endpoint[2..]
  }

  /** `found` holds, in order, the refs of the elements from `n` on that carry the slug, and `at` their places. */
  ghost predicate Places(endpoint: string, elements: seq<Element>, n: nat, found: seq<string>, at: seq<nat>)
    requires forall e | e in elements :: IsCompactRow(e.row)
  {
    && |at| == |found| && (forall j, k | 0 <= j < k < |at| :: at[j] < at[k])
    && (forall k | 0 <= k < |at| :: n <= at[k] < |elements| && HasSlug(elements[at[k]], endpoint) && found[k] == elements[at[k]].row["ref"].s)
    && forall i | n <= i < |elements| && i !in at :: !HasSlug(elements[i], endpoint)
  }

  lemma OnePlaceMore(endpoint: string, elements: seq<Element>, n: nat, found: seq<string>, at: seq<nat>)
    requires (forall e | e in elements :: IsCompactRow(e.row)) && n < |elements| && Places(endpoint, elements, n + 1, found, at)
    ensures !HasSlug(elements[n], endpoint) ==> Places(endpoint, elements, n, found, at)
    ensures HasSlug(elements[n], endpoint) ==> Places(endpoint, elements, n, [elements[n].row["ref"].s] + found, [n] + at)
  {
    hide HasSlug;
    assert n in [n] + at && forall i | i in at :: i in [n] + at;
  }

  lemma {:induction false} SlugMatchesAre(endpoint: string, elements: seq<Element>, n: nat) returns (at: seq<nat>)
    requires (forall e | e in elements :: IsCompactRow(e.row)) && n <= |elements|
    requires 2 <= |endpoint| && AfterColon(endpoint) == endpoint[2..]
    ensures Places(endpoint, elements, n, SlugMatches(endpoint, elements[n..]), at)
    decreases |elements| - n
  {
    at := [];
    if n < |elements| {
      assert elements[n..][0] == elements[n] && elements[n..][1..] == elements[n + 1..];
      var found, first := SlugMatches(endpoint, elements[n + 1..]), elements[n].row["ref"].s;
      assert SlugMatches(endpoint, elements[n..]) == (if HasSlug(elements[n], endpoint) then [first] else []) + found;
      assert [] + found == found;
      hide AfterColon, HasSlug, SlugMatches, Places;
      at := SlugMatchesAre(endpoint, elements, n + 1);
      OnePlaceMore(endpoint, elements, n, found, at);
      if HasSlug(elements[n], endpoint) { at := [n] + at; }
    }
  }

  lemma OnlyPlace(at: seq<nat>, i: nat)
    requires (forall j, k | 0 <= j < k < |at| :: at[j] < at[k]) && i in at && forall k | k in at :: k == i
    ensures at == [i]
  {
    assert at[0] in at && at[|at| - 1] in at;
    assert at[0] == i && at[|at| - 1] == i;
    assert |at| == 1;
  }

  /**
   A flow endpoint that names no element follows the zoned element with its slug
   exactly where there is one such element and no other; else it stays.
   */
  lemma FollowIs(endpoint: string, claims: Claims, elements: seq<Element>)
    requires forall e | e in elements :: IsCompactRow(e.row)
    requires endpoint !in claims.ids && 2 <= |endpoint| && endpoint[0] in "eps" && endpoint[1] == ':'
    ensures forall i | 0 <= i < |elements| && HasSlug(elements[i], endpoint)
                       && forall k | 0 <= k < |elements| && HasSlug(elements[k], endpoint) :: k == i ::
              Follow(endpoint, claims, elements) == elements[i].row["ref"].s
    ensures (forall i | 0 <= i < |elements| && HasSlug(elements[i], endpoint) ::
               exists k | 0 <= k < |elements| && HasSlug(elements[k], endpoint) :: k != i)
            ==> Follow(endpoint, claims, elements) == endpoint
  {
    AfterColonIs(endpoint[..1], endpoint[2..]);
    assert endpoint == endpoint[..1] + ":" + endpoint[2..] && elements[0..] == elements;
    var at := SlugMatchesAre(endpoint, elements, 0);
    hide SlugMatches, AfterColon, HasSlug;
    assert forall k | 0 <= k < |at| :: at[k] in at;
    forall i | 0 <= i < |elements| && HasSlug(elements[i], endpoint)
               && forall k | 0 <= k < |elements| && HasSlug(elements[k], endpoint) :: k == i
      ensures at == [i]
    {
      assert i in at;
      OnlyPlace(at, i);
    }
    if |at| == 1 {
      var i := at[0];
      assert forall k: nat | k in at :: k == i;
    }
  }

  /** An endpoint that names an element, or has no tag of a zoned type, stays as it is. */
  lemma EndpointStays(endpoint: string, claims: Claims, elements: seq<Element>)
    requires forall e | e in elements :: IsCompactRow(e.row)
    requires endpoint in claims.ids || |endpoint| < 2 || endpoint[1] != ':' || endpoint[0] !in {'e', 'p', 's'}
    ensures Follow(endpoint, claims, elements) == endpoint
  {
    assert "eps"[0] == 'e' && "eps"[1] == 'p' && "eps"[2] == 's';
  }

  /** The only zoned element of the endpoint's slug. */
  ghost predicate OnlyMatch(endpoint: string, elements: seq<Element>, i: nat)
    requires forall e | e in elements :: IsCompactRow(e.row)
  {
    i < |elements| && HasSlug(elements[i], endpoint) && forall k | 0 <= k < |elements| && HasSlug(elements[k], endpoint) :: k == i
  }

  /**
   What the references of a row come to. A ref that one element claims becomes the
   ID of that element and any other stays; an endpoint that names no element and has
   one zoned element of its slug becomes what the ref of that element becomes.
   */
  lemma ReferencesBecome(e: Element, claims: Claims, elements: seq<Element>, field: string)
    requires IsCompactRow(e.row) && forall f | f in elements :: IsCompactRow(f.row)
    requires field in {"trust_zone", "source", "destination"} && field in e.row && e.row[field].Text?
    ensures var expanded, ref := ExpandRow(e, claims, elements), e.row[field].s;
            && field in expanded
            && (field == "trust_zone" || ref in claims.ids ==>
                  expanded[field] == Text(if ref in claims.ids && ref !in claims.ambiguous then claims.ids[ref] else ref))
            && (field != "trust_zone" && ref !in claims.ids && 2 <= |ref| && ref[0] in "eps" && ref[1] == ':' ==>
                  forall i: nat | OnlyMatch(ref, elements, i) ::
                    var other := elements[i].row["ref"].s;
                    expanded[field] == Text(if other in claims.ids && other !in claims.ambiguous then claims.ids[other] else other))
  {
    var ref := e.row[field].s;
    FieldNames(field);
    assert field in Restored(e.row) && Restored(e.row)[field] == e.row[field];
    if field != "trust_zone" && ref !in claims.ids && 2 <= |ref| && ref[0] in "eps" && ref[1] == ':' {
      FollowIs(ref, claims, elements);
      forall i: nat | OnlyMatch(ref, elements, i) ensures Follow(ref, claims, elements) == elements[i].row["ref"].s {}
    }
    hide Follow, OnlyMatch, HasSlug, SlugMatches;
  }

  lemma FieldNames(field: string)
    requires field in {"trust_zone", "source", "destination"}
    ensures IsReference(field) && (IsEndpoint(field) <==> field != "trust_zone") && field != "id" && field != "ref"
  {
    assert REFERENCE_FIELDS[0] == "trust_zone" && REFERENCE_FIELDS[1] == "source" && REFERENCE_FIELDS[2] == "destination";
    assert "trust_zone"[0] == 't' && "source"[0] == 's' && "destination"[0] == 'd' && "id"[0] == 'i' && "ref"[0] == 'r';
  }
}
