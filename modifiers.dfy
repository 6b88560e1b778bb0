/** Modifier maps of the view-arch pass: what an element's `attrs`
    declaration seeds, what a field's inline attributes and static flags
    force, and what the final loop of AddModifiers prunes. These functions
    are the reference definitions the methods of module ViewArch are
    proved against; the lemmas below state what they mean. */
module Modifiers {
  import opened Wrappers
  import opened Etree

  /** A domain decoded from an `attrs` declaration, kept as its JSON text.
      NilDomain is Go's nil slice, which a missing key also yields. */
  datatype Domain = NilDomain | Domain(json: string)

  /** A modifier value: a literal boolean, or a domain passed on verbatim
      for the client to evaluate against the record. */
  datatype ModValue = Lit(b: bool) | Dom(domain: Domain)

  type ModMap = map<string, ModValue>

  /** The static flags of a model field that the pass reads. */
  datatype FieldInfo = FieldInfo(readOnly: bool, required: bool)

  /** The conditions under which the source panics with a logged message. */
  datatype ViewError =
    | UnparsableArch(arch: string)
    | InvalidAttrs(attrs: string)
    | RenderFailed

  const ModifierNames: set<string> := {"readonly", "required", "invisible"}

  /** The map every element starts from. */
  const AllFalse: ModMap :=
    map["readonly" := Lit(false), "required" := Lit(false), "invisible" := Lit(false)]

  /** `m[k]` holds the literal `true` (a Go `.(bool)` assertion that succeeds with true). */
  predicate LitTrue(m: ModMap, k: string)
  {
    k in m && m[k] == Lit(true)
  }

  /** An inline attribute counts as set unless it is "", "0" or "false". */
  predicate Truthy(s: string)
  {
    s != "" && s != "0" && s != "false"
  }

  /** Go's `attrs[k]` on the decoded map: nil when the key is missing. */
  function DomainOf(attrs: map<string, Domain>, k: string): Domain
  {
    if k in attrs then attrs[k] else NilDomain
  }

  /** The raw text of an element's `attrs` declaration ("" when absent). */
  function AttrsText(e: Element): string
  {
    AttrValueOr(e.attrs, "attrs", "")
  }

  // ---------------------------------------------------------------------------
  // The seed: ProcessElementAttrs

  /** The three modifiers as `attrs` sets them: the verbatim domain where the
      domain parser accepts it, `false` elsewhere. */
  function FromDomains(attrs: map<string, Domain>, parseDomain: Domain -> bool): ModMap
  {
    map k | k in ModifierNames :: if parseDomain(DomainOf(attrs, k)) then Dom(DomainOf(attrs, k)) else Lit(false)
  }

  /** What ProcessElementAttrs returns for `e`. The JSON decoder of the
      `attrs` text is a parameter; None stands for a decoding error. */
  function ElementAttrs(e: Element, decode: string -> Option<map<string, Domain>>, parseDomain: Domain -> bool)
    : Result<ModMap, ViewError>
  {
    var text := AttrsText(e);
    if text == "" then Ok(AllFalse)
    else
      match decode(text)
      case None => Err(InvalidAttrs(text))
      case Some(attrs) => Ok(FromDomains(attrs, parseDomain))
  }

  /** An element without `attrs`, or with an empty one, is seeded all false. */
  lemma SeedWithoutAttrs(e: Element, decode: string -> Option<map<string, Domain>>, parseDomain: Domain -> bool)
    requires AttrsText(e) == ""
    ensures ElementAttrs(e, decode, parseDomain) == Ok(AllFalse)
  {
  }

  /** The seed fails exactly when a non-empty `attrs` does not decode, and
      the error carries that text. */
  lemma SeedFails(e: Element, decode: string -> Option<map<string, Domain>>, parseDomain: Domain -> bool)
    ensures ElementAttrs(e, decode, parseDomain).Err? <==> AttrsText(e) != "" && decode(AttrsText(e)).None?
    ensures ElementAttrs(e, decode, parseDomain).Err? ==>
      ElementAttrs(e, decode, parseDomain).error == InvalidAttrs(AttrsText(e))
  {
  }

  /** A decoded seed has exactly the three modifiers; each is the verbatim
      domain of that key when the domain parser accepts it and `false`
      otherwise. Nothing is evaluated. */
  lemma SeedFromDomains(e: Element, decode: string -> Option<map<string, Domain>>, parseDomain: Domain -> bool)
    requires ElementAttrs(e, decode, parseDomain).Ok?
    ensures ElementAttrs(e, decode, parseDomain).value.Keys == ModifierNames
    ensures forall k :: k in ModifierNames ==>
      var seed := ElementAttrs(e, decode, parseDomain).value;
      if AttrsText(e) != "" && parseDomain(DomainOf(decode(AttrsText(e)).value, k))
      then seed[k] == Dom(DomainOf(decode(AttrsText(e)).value, k))
      else seed[k] == Lit(false)
  {
  }

  // ---------------------------------------------------------------------------
  // The field rules: ProcessFieldElementModifiers

  /** The value of the field's inline attribute named `k` ("" if absent). */
  function Inline(e: Element, k: string): string
  {
    AttrValueOr(e.attrs, k, "")
  }

  /** The seed with every modifier whose inline attribute is truthy forced to true. */
  function InlineForced(e: Element, seed: ModMap): ModMap
  {
    map k | k in seed :: if Truthy(Inline(e, k)) then Lit(true) else seed[k]
  }

  /** What ProcessFieldElementModifiers returns: the seed with every
      modifier whose inline attribute is truthy forced to true, then the
      static ReadOnly and Required flags forced on. */
  function FieldModifiers(e: Element, info: FieldInfo, seed: ModMap): ModMap
  {
    var inline := InlineForced(e, seed);
    var withReadOnly := if info.readOnly then inline["readonly" := Lit(true)] else inline;
    if info.required then withReadOnly["required" := Lit(true)] else withReadOnly
  }

  /** The field rules only ever set modifiers to true: a truthy inline
      attribute or a static flag forces `true`; every other modifier keeps
      its seed value; the only keys added are those of the static flags. */
  lemma FieldModifiersValues(e: Element, info: FieldInfo, seed: ModMap)
    ensures FieldModifiers(e, info, seed).Keys == seed.Keys + (if info.readOnly then {"readonly"} else {})
                                                           + (if info.required then {"required"} else {})
    ensures forall k :: k in seed && Truthy(Inline(e, k)) ==> FieldModifiers(e, info, seed)[k] == Lit(true)
    ensures info.readOnly ==> FieldModifiers(e, info, seed)["readonly"] == Lit(true)
    ensures info.required ==> FieldModifiers(e, info, seed)["required"] == Lit(true)
    ensures forall k :: k in seed && !Truthy(Inline(e, k))
                        && !(k == "readonly" && info.readOnly) && !(k == "required" && info.required)
                        ==> FieldModifiers(e, info, seed)[k] == seed[k]
    ensures forall k :: k in FieldModifiers(e, info, seed) ==>
      FieldModifiers(e, info, seed)[k] == Lit(true) || (k in seed && FieldModifiers(e, info, seed)[k] == seed[k])
  {
  }

  // ---------------------------------------------------------------------------
  // The final loop of AddModifiers

  /** `m` with every literal-false key removed. */
  function Pruned(m: ModMap): ModMap
  {
    map k | k in m && m[k] != Lit(false) :: m[k]
  }

  /** The cross rule's trigger: `required` is literally true together with
      a literally true `invisible` or `readonly`. */
  predicate RequiredContradicted(m: ModMap)
  {
    LitTrue(m, "required") && (LitTrue(m, "invisible") || LitTrue(m, "readonly"))
  }

  /** What the body of the last loop of AddModifiers leaves of a map:
      literal-false keys pruned, then `required` dropped under the cross rule. */
  function Finalized(m: ModMap): ModMap
  {
    var pruned := Pruned(m);
    if RequiredContradicted(pruned) then pruned - {"required"} else pruned
  }

  /** A finalized map holds no literal false and no contradicted
      `required`; it keeps every other entry of `m` unchanged, every domain
      among them. A literally true `required` survives exactly when neither
      `invisible` nor `readonly` is literally true. */
  lemma FinalizedValues(m: ModMap)
    ensures forall k :: k in Finalized(m) ==> Finalized(m)[k] != Lit(false)
    ensures forall k :: k in Finalized(m) ==> k in m && Finalized(m)[k] == m[k]
    ensures forall k :: k in m && m[k].Dom? ==> k in Finalized(m)
    ensures forall k :: k in m && m[k] == Lit(true) && k != "required" ==> k in Finalized(m)
    ensures !RequiredContradicted(Finalized(m))
    ensures LitTrue(m, "required") ==>
      ("required" in Finalized(m) <==> !LitTrue(m, "invisible") && !LitTrue(m, "readonly"))
  {
  }

  /** Finalizing twice changes nothing more. */
  lemma FinalizedIdempotent(m: ModMap)
    ensures Finalized(Finalized(m)) == Finalized(m)
  {
    FinalizedValues(m);
    var f := Finalized(m);
    assert Pruned(f) == f;
  }

  // ---------------------------------------------------------------------------
  // One element end to end

  /** A field element names its model field; the source dereferences both
      the `name` attribute and the field's metadata without checking. */
  predicate FieldResolves(e: Element, fieldInfos: map<string, FieldInfo>)
  {
    SelectAttr(e.attrs, "name").Some? && SelectAttr(e.attrs, "name").value in fieldInfos
  }

  /** The elements AddModifiers writes a `modifiers` attribute on. */
  predicate Governed(e: Element)
  {
    e.tag == "field" || HasAttr(e, "attrs")
  }

  /** The map AddModifiers holds for `e` before its final loop: the attrs
      seed, merged with the field rules when `e` is a field. */
  function Merged(e: Element, fieldInfos: map<string, FieldInfo>, seed: ModMap): ModMap
    requires e.tag == "field" ==> FieldResolves(e, fieldInfos)
  {
    if e.tag == "field" then FieldModifiers(e, fieldInfos[SelectAttr(e.attrs, "name").value], seed)
    else seed
  }

  /** The modifier map AddModifiers serialises onto `e`. */
  function ElementModifiers(e: Element, fieldInfos: map<string, FieldInfo>,
                            decode: string -> Option<map<string, Domain>>, parseDomain: Domain -> bool)
    : Result<ModMap, ViewError>
    requires e.tag == "field" ==> FieldResolves(e, fieldInfos)
  {
    match ElementAttrs(e, decode, parseDomain)
    case Err(x) => Err(x)
    case Ok(seed) => Ok(Finalized(Merged(e, fieldInfos, seed)))
  }

  /** The static flags of the field `e` names. */
  function InfoOf(e: Element, fieldInfos: map<string, FieldInfo>): FieldInfo
    requires FieldResolves(e, fieldInfos)
  {
    fieldInfos[SelectAttr(e.attrs, "name").value]
  }

  /** What every written map looks like: only the three modifier names, no
      literal false, and never `required` beside a literally true
      `invisible` or `readonly`. */
  lemma ElementModifiersShape(e: Element, fieldInfos: map<string, FieldInfo>,
                              decode: string -> Option<map<string, Domain>>, parseDomain: Domain -> bool)
    requires e.tag == "field" ==> FieldResolves(e, fieldInfos)
    requires ElementAttrs(e, decode, parseDomain).Ok?
    ensures ElementModifiers(e, fieldInfos, decode, parseDomain).Ok?
    ensures ElementModifiers(e, fieldInfos, decode, parseDomain).value.Keys <= ModifierNames
    ensures forall k :: k in ElementModifiers(e, fieldInfos, decode, parseDomain).value ==>
      ElementModifiers(e, fieldInfos, decode, parseDomain).value[k] != Lit(false)
    ensures !RequiredContradicted(ElementModifiers(e, fieldInfos, decode, parseDomain).value)
  {
    var seed := ElementAttrs(e, decode, parseDomain).value;
    SeedFromDomains(e, decode, parseDomain);
    var merged := Merged(e, fieldInfos, seed);
    if e.tag == "field" {
      FieldModifiersValues(e, InfoOf(e, fieldInfos), seed);
    }
    assert merged.Keys <= ModifierNames;
    FinalizedValues(merged);
  }

  /** The map of a field seeded all false, with no truthy inline modifier,
      holds exactly its static flags. */
  lemma StaticOnly(e: Element, info: FieldInfo)
    requires forall k :: k in ModifierNames ==> !Truthy(Inline(e, k))
    ensures FieldModifiers(e, info, AllFalse) ==
      map["readonly" := Lit(info.readOnly), "required" := Lit(info.required), "invisible" := Lit(false)]
  {
    var merged := FieldModifiers(e, info, AllFalse);
    FieldModifiersValues(e, info, AllFalse);
    assert merged.Keys == ModifierNames;
  }

  /** Finalizing the three literal flags keeps the true ones, but not
      `required` beside a true `readonly`. */
  lemma FinalizedFlags(readOnly: bool, required: bool)
    ensures var m := Finalized(map["readonly" := Lit(readOnly), "required" := Lit(required), "invisible" := Lit(false)]);
      && m.Keys == (if readOnly then {"readonly"} else if required then {"required"} else {})
      && forall k :: k in m ==> m[k] == Lit(true)
  {
    var flags := map["readonly" := Lit(readOnly), "required" := Lit(required), "invisible" := Lit(false)];
    FinalizedValues(flags);
    var m := Finalized(flags);
    assert "invisible" !in m;
    assert "readonly" in m <==> readOnly;
    assert "required" in m <==> required && !readOnly;
  }

  /** A field with no `attrs` and no truthy inline modifier gets exactly its
      static flags, as `true`, with `required` dropped when the field is
      also read-only: attrs on an enclosing element do not flow down. */
  lemma FieldWithoutAttrs(e: Element, fieldInfos: map<string, FieldInfo>,
                          decode: string -> Option<map<string, Domain>>, parseDomain: Domain -> bool)
    requires e.tag == "field" && FieldResolves(e, fieldInfos)
    requires AttrsText(e) == ""
    requires forall k :: k in ModifierNames ==> !Truthy(Inline(e, k))
    ensures ElementModifiers(e, fieldInfos, decode, parseDomain).Ok?
    ensures var m := ElementModifiers(e, fieldInfos, decode, parseDomain).value;
      && m.Keys == (if InfoOf(e, fieldInfos).readOnly then {"readonly"}
                    else if InfoOf(e, fieldInfos).required then {"required"}
                    else {})
      && forall k :: k in m ==> m[k] == Lit(true)
  {
    var info := InfoOf(e, fieldInfos);
    SeedWithoutAttrs(e, decode, parseDomain);
    StaticOnly(e, info);
    FinalizedFlags(info.readOnly, info.required);
  }

  /** A truthy inline attribute on a field always shows up as `true`, unless
      it is `required` and the cross rule removes it. */
  lemma InlineAttributeWins(e: Element, fieldInfos: map<string, FieldInfo>,
                            decode: string -> Option<map<string, Domain>>, parseDomain: Domain -> bool,
                            k: string)
    requires e.tag == "field" && FieldResolves(e, fieldInfos)
    requires ElementAttrs(e, decode, parseDomain).Ok?
    requires k in ModifierNames && Truthy(Inline(e, k))
    ensures var m := ElementModifiers(e, fieldInfos, decode, parseDomain).value;
      if k == "required" then (LitTrue(m, "required") <==> !LitTrue(m, "invisible") && !LitTrue(m, "readonly"))
      else LitTrue(m, k)
  {
    var seed := ElementAttrs(e, decode, parseDomain).value;
    SeedFromDomains(e, decode, parseDomain);
    var merged := FieldModifiers(e, InfoOf(e, fieldInfos), seed);
    FieldModifiersValues(e, InfoOf(e, fieldInfos), seed);
    FinalizedValues(merged);
  }

  /** Static Required survives exactly when neither `readonly` nor
      `invisible` ends up literally true; in particular a read-only
      required field has no `required` key. */
  lemma StaticRequired(e: Element, fieldInfos: map<string, FieldInfo>,
                       decode: string -> Option<map<string, Domain>>, parseDomain: Domain -> bool)
    requires e.tag == "field" && FieldResolves(e, fieldInfos)
    requires ElementAttrs(e, decode, parseDomain).Ok?
    requires InfoOf(e, fieldInfos).required
    ensures var seed := ElementAttrs(e, decode, parseDomain).value;
      var merged := FieldModifiers(e, InfoOf(e, fieldInfos), seed);
      var m := ElementModifiers(e, fieldInfos, decode, parseDomain).value;
      && (LitTrue(m, "required") <==> !LitTrue(merged, "readonly") && !LitTrue(merged, "invisible"))
      && (InfoOf(e, fieldInfos).readOnly ==> "required" !in m)
  {
    var seed := ElementAttrs(e, decode, parseDomain).value;
    SeedFromDomains(e, decode, parseDomain);
    var merged := FieldModifiers(e, InfoOf(e, fieldInfos), seed);
    FieldModifiersValues(e, InfoOf(e, fieldInfos), seed);
    FinalizedValues(merged);
  }

  /** An element other than a field gets neither inline nor static rules:
      its written map holds exactly the modifiers whose domain the parser
      accepts, each as that domain verbatim. */
  lemma NonFieldKeepsDomains(e: Element, fieldInfos: map<string, FieldInfo>,
                             decode: string -> Option<map<string, Domain>>, parseDomain: Domain -> bool)
    requires e.tag != "field"
    requires AttrsText(e) != "" && decode(AttrsText(e)).Some?
    ensures var attrs := decode(AttrsText(e)).value;
      ElementModifiers(e, fieldInfos, decode, parseDomain) ==
        Ok(map k | k in ModifierNames && parseDomain(DomainOf(attrs, k)) :: Dom(DomainOf(attrs, k)))
  {
    var attrs := decode(AttrsText(e)).value;
    var seed := FromDomains(attrs, parseDomain);
    assert ElementAttrs(e, decode, parseDomain) == Ok(seed);
    assert !RequiredContradicted(Pruned(seed));
    assert Finalized(seed) == Pruned(seed);
    var want := map k | k in ModifierNames && parseDomain(DomainOf(attrs, k)) :: Dom(DomainOf(attrs, k));
    assert Pruned(seed).Keys == want.Keys;
    assert forall k :: k in want ==> Pruned(seed)[k] == want[k];
    assert Pruned(seed) == want;
  }
}
