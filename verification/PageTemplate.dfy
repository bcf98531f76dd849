/**
 Filling a page template field by field. Each field replaces its placeholder in
 the whole page so far, so a value could form a placeholder that a later field
 fills. Where none can, the loop is one simultaneous substitution.
 */
module PageTemplate {
  import opened Results

  const NONCE_PLACEHOLDER := "__CSP_NONCE__"

  datatype Field = Field(name: string, value: string)

  datatype RenderError = MissingPlaceholder(name: string)

  function Placeholder(name: string): (p: string)
    ensures |p| == |name| + 7
  {
    "<!--" + name + "-->"
  }

  /** Replaces each occurrence of `p`, from the left and without overlap. */
  function Replace(s: string, p: string, v: string): string
    requires p != ""
    decreases |s|
  {
    if s == "" then ""
    else if p <= s then v + Replace(s[|p|..], p, v)
    else [s[0]] + Replace(s[1..], p, v)
  }

  predicate Contains(s: string, p: string) {
    p <= s || (s != "" && Contains(s[1..], p))
  }

  /** Fills the fields of `page` in their order. */
  function FillInOrder(page: string, fields: seq<Field>): Result<string, RenderError>
    decreases |fields|
  {
    if fields == [] then Ok(page)
    else
      var p := Placeholder(fields[0].name);
      if !Contains(page, p) then Err(MissingPlaceholder(fields[0].name))
      else FillInOrder(Replace(page, p, fields[0].value), fields[1..])
  }

  /** The nonce first, then the script, then the fields. */
  method Render(template: string, nonce: string, script: string, fields: seq<Field>)
    returns (result: Result<string, RenderError>)
    ensures result == FillInOrder(Replace(template, NONCE_PLACEHOLDER, nonce), (if script != "" then [Field("script", script)] else []) + fields)
  {
    var page := Replace(template, NONCE_PLACEHOLDER, nonce);
    var filling := (if script != "" then [Field("script", script)] else []) + fields;
    ghost var whole := FillInOrder(page, filling);
    var i := 0;
    while i < |filling|
      invariant i <= |filling| && FillInOrder(page, filling[i..]) == whole
    {
      assert filling[i..][0] == filling[i] && filling[i..][1..] == filling[i + 1..];
      var placeholder := Placeholder(filling[i].name);
      if !Contains(page, placeholder) { return Err(MissingPlaceholder(filling[i].name)); }
      page := Replace(page, placeholder, filling[i].value);
      i := i + 1;
    }
    result := Ok(page);
  }

  // ---- The template as characters and holes ----

  datatype Token = Chr(c: char) | Hole(name: string)

  /** A name of a keyword argument, as far as the marks of a placeholder go. */
  predicate IsName(name: string) { '<' !in name && '-' !in name }

  /** The name whose placeholder stands at the start of `s`. */
  function HoleAt(s: string, names: seq<string>): (h: Option<string>)
    ensures h.Some? ==> h.value in names && Placeholder(h.value) <= s
    ensures h.None? ==> forall n | n in names :: !(Placeholder(n) <= s)
  {
    if names == [] then None
    else if Placeholder(names[0]) <= s then Some(names[0])
    else HoleAt(s, names[1..])
  }

  function Tokens(s: string, names: seq<string>): seq<Token>
    decreases |s|
  {
    if s == "" then []
    else
      match HoleAt(s, names)
      case None => [Chr(s[0])] + Tokens(s[1..], names)
      case Some(n) => [Hole(n)] + Tokens(s[|Placeholder(n)|..], names)
  }

  function Text(t: Token): string {
    match t
    case Chr(c) => [c]
    case Hole(n) => Placeholder(n)
  }

  function Unparse(tokens: seq<Token>): string {
    if tokens == [] then "" else Text(tokens[0]) + Unparse(tokens[1..])
  }

  /** The value of a field, by its name. */
  function Lookup(fields: seq<Field>, name: string): Option<string> {
    if fields == [] then None
    else if fields[0].name == name then Some(fields[0].value)
    else Lookup(fields[1..], name)
  }

  /** Every hole at once: the value of its field, and the placeholder where no field has its name. */
  function FillAtOnce(tokens: seq<Token>, fields: seq<Field>): string {
    if tokens == [] then ""
    else
      (match tokens[0]
       case Chr(c) => [c]
       case Hole(n) => if Lookup(fields, n).Some? then Lookup(fields, n).value else Placeholder(n))
      + FillAtOnce(tokens[1..], fields)
  }

  // ---- When filling cannot form a placeholder ----

  /** No comment starts in the value, and none that starts before its end can go on behind it. */
  predicate Inert(v: string) {
    forall i | 0 <= i < |v| :: !(v[i..] <= "<!--") && !("<!--" <= v[i..])
  }

  /** Part of the placeholder of `n`, from its start but not all of it, stands right in front of a placeholder of `m`. */
  predicate UnfinishedAt(page: string, n: string, m: string, i: nat, k: nat) {
    && 0 < k < |Placeholder(n)| && i + k <= |page|
    && page[i..i + k] == Placeholder(n)[..k] && Placeholder(m) <= page[i + k..]
  }

  /** No placeholder of a name is left unfinished in front of one of another name. */
  ghost predicate Separate(page: string, names: seq<string>) {
    forall n, m, i: nat, k: nat | n in names && m in names && n != m :: !UnfinishedAt(page, n, m, i, k)
  }
}
