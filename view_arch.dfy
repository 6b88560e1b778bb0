/** The view-arch pass of the common mixin. The document is an array of
    elements in the order the source's descendant searches visit them; an
    element's identity, which the source takes from its pointer, is its
    index. XML parsing and writing, JSON decoding and encoding, the domain
    parser and the field-name canonicaliser are parameters. */
module ViewArch {
  import opened Wrappers
  import opened Etree
  import opened Modifiers

  /** The collaborators ProcessView calls and this model does not define. */
  datatype Oracles = Oracles(
    jsonize: string -> string,                            // Model.JSONizeFieldName
    parseDomain: Domain -> bool,                          // domains.ParseDomain(d) != nil
    decodeAttrs: string -> Option<map<string, Domain>>,   // json.Unmarshal of an attrs text
    marshal: ModMap -> string,                            // json.Marshal of a modifier map
    parseArch: string -> Option<Arch>,                    // Document.ReadFromString
    render: Arch -> Option<string>)                       // Document.WriteToString

  // ---------------------------------------------------------------------------
  // Renaming

  /** Sets attribute `key` to `value` the way the renaming loops do: remove
      the attribute, then create it again. */
  function RenameAttr(attrs: seq<Attr>, key: string, value: string): seq<Attr>
  {
    CreateAttr(RemoveAttr(attrs, key), key, value)
  }

  /** After renaming, `key` maps to the new value, every other lookup is
      unchanged, and unique keys stay unique. */
  lemma RenameAttrLookups(attrs: seq<Attr>, key: string, value: string)
    ensures SelectAttr(RenameAttr(attrs, key, value), key) == Some(value)
    ensures forall k :: k != key ==> SelectAttr(RenameAttr(attrs, key, value), k) == SelectAttr(attrs, k)
    ensures UniqueKeys(attrs) ==> UniqueKeys(RenameAttr(attrs, key, value))
  {
    RemoveAttrLookups(attrs, key);
    CreateAttrLookups(RemoveAttr(attrs, key), key, value);
  }

  /** The source dereferences a field's `name` and a label's `for` unchecked. */
  predicate Nameable(e: Element)
  {
    && (e.tag == "field" ==> HasAttr(e, "name"))
    && (e.tag == "label" ==> HasAttr(e, "for"))
  }

  /** What UpdateFieldNames leaves of one element. */
  function Renamed(e: Element, jsonize: string -> string): Element
    requires Nameable(e)
  {
    if e.tag == "field" then Element(e.tag, RenameAttr(e.attrs, "name", jsonize(SelectAttr(e.attrs, "name").value)))
    else if e.tag == "label" then Element(e.tag, RenameAttr(e.attrs, "for", jsonize(SelectAttr(e.attrs, "for").value)))
    else e
  }

  /** A field's `name` and a label's `for` become the canonical form of their
      old value; every other attribute lookup, the tag, and every element
      that is neither a field nor a label stay as they were. */
  lemma RenamedLookups(e: Element, jsonize: string -> string)
    requires Nameable(e)
    ensures Renamed(e, jsonize).tag == e.tag
    ensures e.tag == "field" ==>
      SelectAttr(Renamed(e, jsonize).attrs, "name") == Some(jsonize(SelectAttr(e.attrs, "name").value))
    ensures e.tag == "label" ==>
      SelectAttr(Renamed(e, jsonize).attrs, "for") == Some(jsonize(SelectAttr(e.attrs, "for").value))
    ensures forall k :: !(k == "name" && e.tag == "field") && !(k == "for" && e.tag == "label")
                        ==> SelectAttr(Renamed(e, jsonize).attrs, k) == SelectAttr(e.attrs, k)
    ensures e.tag != "field" && e.tag != "label" ==> Renamed(e, jsonize) == e
    ensures UniqueKeys(e.attrs) ==> UniqueKeys(Renamed(e, jsonize).attrs)
  {
    if e.tag == "field" {
      RenameAttrLookups(e.attrs, "name", jsonize(SelectAttr(e.attrs, "name").value));
    } else if e.tag == "label" {
      RenameAttrLookups(e.attrs, "for", jsonize(SelectAttr(e.attrs, "for").value));
    }
  }

  /** What one renaming loop of UpdateFieldNames leaves of an element:
      elements tagged `tag` get attribute `key` rewritten, others are kept. */
  function RenamedIf(e: Element, tag: string, key: string, jsonize: string -> string): Element
    requires e.tag == tag ==> HasAttr(e, key)
  {
    if e.tag == tag then Element(e.tag, RenameAttr(e.attrs, key, jsonize(SelectAttr(e.attrs, key).value))) else e
  }

  /** Renaming fields first and labels second renames every element once. */
  lemma RenamedInTwoSteps(e: Element, jsonize: string -> string)
    requires Nameable(e)
    ensures RenamedIf(e, "field", "name", jsonize).tag == "label" ==> HasAttr(RenamedIf(e, "field", "name", jsonize), "for")
    ensures RenamedIf(RenamedIf(e, "field", "name", jsonize), "label", "for", jsonize) == Renamed(e, jsonize)
  {
  }

  /** On an element with unique keys, renaming moves the attribute to the end. */
  lemma RenameAttrMovesToEnd(attrs: seq<Attr>, key: string, value: string)
    requires UniqueKeys(attrs)
    ensures RenameAttr(attrs, key, value) == RemoveAttr(attrs, key) + [Attr(key, value)]
  {
  }

  /** Renaming an attribute that was just renamed to the same value changes
      nothing, not even the attribute order. */
  lemma {:induction false} RenameAttrTwice(attrs: seq<Attr>, key: string, value: string)
    requires UniqueKeys(attrs)
    ensures RenameAttr(RenameAttr(attrs, key, value), key, value) == RenameAttr(attrs, key, value)
  {
    var rest := RemoveAttr(attrs, key);
    var once := RenameAttr(attrs, key, value);
    RenameAttrMovesToEnd(attrs, key, value);
    assert once == rest + [Attr(key, value)];
    SelectAttrFinds(rest, key);
    assert forall j :: 0 <= j < |rest| ==> rest[j].key != key;
    IndexOfIs(once, key, |rest|);
    assert once[..|rest|] + once[|rest| + 1..] == rest;
    assert RemoveAttr(once, key) == rest;
    RenameAttrMovesToEnd(once, key, value);
  }

  /** Idempotence of UpdateFieldNames on one element, for a canonicaliser
      that maps canonical names to themselves. */
  lemma RenamedIdempotent(e: Element, jsonize: string -> string)
    requires Nameable(e) && UniqueKeys(e.attrs)
    requires forall n :: jsonize(jsonize(n)) == jsonize(n)
    ensures Nameable(Renamed(e, jsonize))
    ensures Renamed(Renamed(e, jsonize), jsonize) == Renamed(e, jsonize)
  {
    if e.tag == "field" {
      RenameAttrTwice(e.attrs, "name", jsonize(SelectAttr(e.attrs, "name").value));
    } else if e.tag == "label" {
      RenameAttrTwice(e.attrs, "for", jsonize(SelectAttr(e.attrs, "for").value));
    }
  }

  /** A field whose `name` is already canonical is not left alone: the
      remove-then-create still moves `name` behind the other attributes. */
  lemma CanonicalNameStillMoves(jsonize: string -> string)
    requires jsonize("a") == "a"
    ensures var e := Element("field", [Attr("name", "a"), Attr("string", "x")]);
      && Renamed(e, jsonize) == Element("field", [Attr("string", "x"), Attr("name", "a")])
      && Renamed(e, jsonize) != e
  {
    var attrs := [Attr("name", "a"), Attr("string", "x")];
    assert IndexOf(attrs, "name") == 0;
    assert RemoveAttr(attrs, "name") == [Attr("string", "x")];
    assert IndexOf([Attr("string", "x")], "name") == 1 by {
      assert IndexOf([Attr("string", "x")][1..], "name") == 0;
    }
  }

  /** The body of one loop of UpdateFieldNames: reads attribute `key` of
      element `i`, removes it, and creates it again with its canonical form. */
  method RenameAt(doc: array<Element>, i: nat, key: string, jsonize: string -> string)
    requires i < doc.Length && HasAttr(doc[i], key)
    modifies doc
    ensures doc[i] == RenamedIf(old(doc[i]), doc[i].tag, key, jsonize)
    ensures forall j :: 0 <= j < doc.Length && j != i ==> doc[j] == old(doc[j])
  {
    var element := doc[i];
    var fieldName := SelectAttr(element.attrs, key).value;
    var fieldJSON := jsonize(fieldName);
    doc[i] := Element(element.tag, CreateAttr(RemoveAttr(element.attrs, key), key, fieldJSON));
  }

  /** One loop of UpdateFieldNames: every element tagged `tag` is renamed
      with RenameAt, in document order. */
  method RenameAttrs(doc: array<Element>, tag: string, key: string, jsonize: string -> string)
    requires forall i :: 0 <= i < doc.Length && doc[i].tag == tag ==> HasAttr(doc[i], key)
    modifies doc
    ensures forall i :: 0 <= i < doc.Length ==> doc[i] == RenamedIf(old(doc[i]), tag, key, jsonize)
  {
    ghost var orig := doc[..];
    var i := 0;
    while i < doc.Length
      invariant 0 <= i <= doc.Length
      invariant forall j :: 0 <= j < i ==> doc[j] == RenamedIf(orig[j], tag, key, jsonize)
      invariant forall j :: i <= j < doc.Length ==> doc[j] == orig[j]
    {
      if doc[i].tag == tag {
        RenameAt(doc, i, key, jsonize);
      }
      i := i + 1;
    }
  }

  /** UpdateFieldNames rewrites every field's `name` and then every label's
      `for` through the canonicaliser; nothing else changes. */
  method UpdateFieldNames(doc: array<Element>, jsonize: string -> string)
    requires forall i :: 0 <= i < doc.Length ==> Nameable(doc[i])
    modifies doc
    ensures forall i :: 0 <= i < doc.Length ==> doc[i] == Renamed(old(doc[i]), jsonize)
  {
    ghost var orig := doc[..];
    RenameAttrs(doc, "field", "name", jsonize);
    forall j | 0 <= j < doc.Length
      ensures doc[j].tag == "label" ==> HasAttr(doc[j], "for")
    {
      RenamedInTwoSteps(orig[j], jsonize);
    }
    RenameAttrs(doc, "label", "for", jsonize);
    forall j | 0 <= j < doc.Length
      ensures doc[j] == Renamed(orig[j], jsonize)
    {
      RenamedInTwoSteps(orig[j], jsonize);
    }
  }

  // ---------------------------------------------------------------------------
  // Modifiers

  /** ProcessElementAttrs: seeds all three modifiers with false, then, when
      the element has a non-empty `attrs`, replaces each one whose domain the
      domain parser accepts with that domain, verbatim. */
  method ProcessElementAttrs(element: Element, decode: string -> Option<map<string, Domain>>,
                             parseDomain: Domain -> bool)
    returns (r: Result<ModMap, ViewError>)
    ensures r == ElementAttrs(element, decode, parseDomain)
  {
    var modifiers := AllFalse;
    var attrStr := AttrValueOr(element.attrs, "attrs", "");
    if attrStr == "" {
      return Ok(modifiers);
    }
    var decoded := decode(attrStr);
    if decoded.None? {
      return Err(InvalidAttrs(attrStr));
    }
    var attrs := decoded.value;
    ghost var target := FromDomains(attrs, parseDomain);
    var pending := modifiers.Keys;
    while pending != {}
      invariant pending <= ModifierNames
      invariant modifiers.Keys == ModifierNames
      invariant forall k :: k in ModifierNames && k !in pending ==> modifiers[k] == target[k]
      invariant forall k :: k in pending ==> modifiers[k] == Lit(false)
      decreases pending
    {
      var modifier :| modifier in pending;
      var cond := DomainOf(attrs, modifier);
      if parseDomain(cond) {
        modifiers := modifiers[modifier := Dom(cond)];
      }
      pending := pending - {modifier};
    }
    assert modifiers == target;
    return Ok(modifiers);
  }

  /** The loop of ProcessFieldElementModifiers: every modifier of the map
      whose inline attribute on the field is truthy becomes true. */
  method ForceInlineModifiers(element: Element, modifiers: ModMap) returns (r: ModMap)
    ensures r == InlineForced(element, modifiers)
  {
    ghost var target := InlineForced(element, modifiers);
    r := modifiers;
    var pending := modifiers.Keys;
    while pending != {}
      invariant pending <= modifiers.Keys
      invariant r.Keys == modifiers.Keys
      invariant forall k :: k in r ==> r[k] == if k in pending then modifiers[k] else target[k]
      decreases pending
    {
      var modifier :| modifier in pending;
      var modTag := AttrValueOr(element.attrs, modifier, "");
      if modTag != "" && modTag != "0" && modTag != "false" {
        r := r[modifier := Lit(true)];
      }
      assert r[modifier] == target[modifier];
      pending := pending - {modifier};
    }
  }

  /** ProcessFieldElementModifiers: forces to true every modifier of the map
      whose inline attribute on the field is truthy, then `readonly` when the
      model field is ReadOnly and `required` when it is Required. */
  method ProcessFieldElementModifiers(element: Element, fieldInfos: map<string, FieldInfo>, modifiers: ModMap)
    returns (r: ModMap)
    requires FieldResolves(element, fieldInfos)
    ensures r == FieldModifiers(element, fieldInfos[SelectAttr(element.attrs, "name").value], modifiers)
  {
    var fieldName := SelectAttr(element.attrs, "name").value;
    r := ForceInlineModifiers(element, modifiers);
    if fieldInfos[fieldName].readOnly {
      r := r["readonly" := Lit(true)];
    }
    if fieldInfos[fieldName].required {
      r := r["required" := Lit(true)];
    }
  }

  /** The body of the last loop of AddModifiers: deletes every literal-false
      key, then deletes a literally true `required` when `invisible` or
      `readonly` is literally true. */
  method PruneModifiers(modifiers: ModMap) returns (r: ModMap)
    ensures r == Finalized(modifiers)
  {
    r := modifiers;
    var pending := modifiers.Keys;
    while pending != {}
      invariant pending <= modifiers.Keys
      invariant forall k :: k in r <==> k in modifiers && (k in pending || modifiers[k] != Lit(false))
      invariant forall k :: k in r ==> r[k] == modifiers[k]
      decreases pending
    {
      var mod :| mod in pending;
      if r[mod] == Lit(false) {
        r := r - {mod};
      }
      pending := pending - {mod};
    }
    assert r == Pruned(modifiers);
    if LitTrue(r, "required") {
      if LitTrue(r, "invisible") || LitTrue(r, "readonly") {
        r := r - {"required"};
      }
    }
  }

  /** Index of the first element whose `attrs` cannot be decoded, or |s|. */
  function FirstBadAttrs(s: seq<Element>, decode: string -> Option<map<string, Domain>>,
                         parseDomain: Domain -> bool): (i: nat)
    ensures i <= |s|
    ensures forall j :: 0 <= j < i ==> ElementAttrs(s[j], decode, parseDomain).Ok?
    ensures i < |s| ==> ElementAttrs(s[i], decode, parseDomain).Err?
  {
    if s == [] then 0
    else if ElementAttrs(s[0], decode, parseDomain).Err? then 0
    else 1 + FirstBadAttrs(s[1..], decode, parseDomain)
  }

  /** The first bad position is determined by the facts above. */
  lemma FirstBadAttrsIs(s: seq<Element>, decode: string -> Option<map<string, Domain>>,
                        parseDomain: Domain -> bool, i: nat)
    requires i <= |s|
    requires forall j :: 0 <= j < i ==> ElementAttrs(s[j], decode, parseDomain).Ok?
    requires i < |s| ==> ElementAttrs(s[i], decode, parseDomain).Err?
    ensures FirstBadAttrs(s, decode, parseDomain) == i
  {
  }

  /** What AddModifiers leaves of one element, when no `attrs` fails to decode. */
  function WithModifiers(e: Element, fieldInfos: map<string, FieldInfo>,
                         decode: string -> Option<map<string, Domain>>, parseDomain: Domain -> bool,
                         marshal: ModMap -> string): Element
    requires e.tag == "field" ==> FieldResolves(e, fieldInfos)
    requires ElementAttrs(e, decode, parseDomain).Ok?
  {
    if Governed(e) then Stamped(e, Merged(e, fieldInfos, ElementAttrs(e, decode, parseDomain).value), marshal)
    else e
  }

  /** `e` with the encoding of the finalized `modifiers` written as its
      `modifiers` attribute. */
  function Stamped(e: Element, modifiers: ModMap, marshal: ModMap -> string): Element
  {
    Element(e.tag, CreateAttr(e.attrs, "modifiers", marshal(Finalized(modifiers))))
  }

  /** Exactly the fields and the elements carrying `attrs` receive a
      `modifiers` attribute, holding the encoding of their modifier map;
      every other attribute, and every other element, is left alone. */
  lemma WithModifiersLookups(e: Element, fieldInfos: map<string, FieldInfo>,
                             decode: string -> Option<map<string, Domain>>, parseDomain: Domain -> bool,
                             marshal: ModMap -> string)
    requires e.tag == "field" ==> FieldResolves(e, fieldInfos)
    requires ElementAttrs(e, decode, parseDomain).Ok?
    ensures WithModifiers(e, fieldInfos, decode, parseDomain, marshal).tag == e.tag
    ensures Governed(e) ==>
      SelectAttr(WithModifiers(e, fieldInfos, decode, parseDomain, marshal).attrs, "modifiers")
        == Some(marshal(ElementModifiers(e, fieldInfos, decode, parseDomain).value))
    ensures forall k :: k != "modifiers" ==>
      SelectAttr(WithModifiers(e, fieldInfos, decode, parseDomain, marshal).attrs, k) == SelectAttr(e.attrs, k)
    ensures !Governed(e) ==> WithModifiers(e, fieldInfos, decode, parseDomain, marshal) == e
  {
    if Governed(e) {
      CreateAttrLookups(e.attrs, "modifiers", marshal(ElementModifiers(e, fieldInfos, decode, parseDomain).value));
    }
  }

  /** The first loop of AddModifiers: the seed of every element that has
      an `attrs` attribute, keyed by position; the first undecodable
      declaration aborts. */
  method CollectAttrs(doc: array<Element>, decode: string -> Option<map<string, Domain>>,
                      parseDomain: Domain -> bool)
    returns (seeds: map<nat, ModMap>, err: Option<ViewError>)
    ensures var bad := FirstBadAttrs(doc[..], decode, parseDomain);
      bad < doc.Length ==> err == Some(ElementAttrs(doc[bad], decode, parseDomain).error)
    ensures FirstBadAttrs(doc[..], decode, parseDomain) == doc.Length ==>
      && err == None
      && (forall j :: j in seeds <==> 0 <= j < doc.Length && HasAttr(doc[j], "attrs"))
      && (forall j :: j in seeds ==> Ok(seeds[j]) == ElementAttrs(doc[j], decode, parseDomain))
  {
    seeds := map[];
    var i := 0;
    while i < doc.Length
      invariant 0 <= i <= doc.Length
      invariant forall j :: 0 <= j < i ==> ElementAttrs(doc[j], decode, parseDomain).Ok?
      invariant forall j :: j in seeds <==> 0 <= j < i && HasAttr(doc[j], "attrs")
      invariant forall j :: j in seeds ==> Ok(seeds[j]) == ElementAttrs(doc[j], decode, parseDomain)
    {
      if HasAttr(doc[i], "attrs") {
        var mods := ProcessElementAttrs(doc[i], decode, parseDomain);
        if mods.Err? {
          FirstBadAttrsIs(doc[..], decode, parseDomain, i);
          return seeds, Some(mods.error);
        }
        seeds := seeds[i := mods.value];
      }
      i := i + 1;
    }
    FirstBadAttrsIs(doc[..], decode, parseDomain, doc.Length);
    err := None;
  }

  /** The map the second loop of AddModifiers starts a field from: its
      seed, or all false when it has no `attrs`. */
  function SeedOr(seeds: map<nat, ModMap>, i: nat): ModMap
  {
    if i in seeds then seeds[i] else AllFalse
  }

  /** The body of the second loop of AddModifiers for the field at index
      `i`: its map, or all false when it has none, goes through the field
      rules and is stored back. */
  method MergeFieldAt(element: Element, i: nat, fieldInfos: map<string, FieldInfo>, allModifiers: map<nat, ModMap>)
    returns (r: map<nat, ModMap>)
    requires element.tag == "field" && FieldResolves(element, fieldInfos)
    ensures r.Keys == allModifiers.Keys + {i}
    ensures forall j :: j in allModifiers && j != i ==> r[j] == allModifiers[j]
    ensures r[i] == Merged(element, fieldInfos, SeedOr(allModifiers, i))
  {
    var mods := if i in allModifiers then allModifiers[i] else AllFalse;
    var merged := ProcessFieldElementModifiers(element, fieldInfos, mods);
    r := allModifiers[i := merged];
  }

  /** The second loop of AddModifiers: every field's map goes through the
      field rules; the maps of other elements are kept. */
  method MergeFields(elements: seq<Element>, fieldInfos: map<string, FieldInfo>, seeds: map<nat, ModMap>)
    returns (allModifiers: map<nat, ModMap>)
    requires forall j :: 0 <= j < |elements| && elements[j].tag == "field" ==> FieldResolves(elements[j], fieldInfos)
    requires forall j :: j in seeds ==> j < |elements|
    ensures forall j :: j in allModifiers <==> j in seeds || (0 <= j < |elements| && elements[j].tag == "field")
    ensures forall j :: j in allModifiers ==>
      j < |elements| && allModifiers[j] == Merged(elements[j], fieldInfos, SeedOr(seeds, j))
  {
    allModifiers := seeds;
    var i := 0;
    while i < |elements|
      invariant 0 <= i <= |elements|
      invariant forall j :: j in allModifiers <==> j in seeds || (0 <= j < i && elements[j].tag == "field")
      invariant forall j :: j in allModifiers ==> j < |elements|
      invariant forall j :: j in allModifiers && j < i ==> allModifiers[j] == Merged(elements[j], fieldInfos, SeedOr(seeds, j))
      invariant forall j :: j in allModifiers && i <= j ==> allModifiers[j] == seeds[j]
    {
      if elements[i].tag == "field" {
        allModifiers := MergeFieldAt(elements[i], i, fieldInfos, allModifiers);
      }
      i := i + 1;
    }
  }

  /** The body of the last loop of AddModifiers for one element: prune its
      map and write the encoding as its `modifiers` attribute. */
  method WriteModifiersAt(doc: array<Element>, i: nat, modifiers: ModMap, marshal: ModMap -> string)
    requires i < doc.Length
    modifies doc
    ensures doc[i] == Stamped(old(doc[i]), modifiers, marshal)
    ensures forall j :: 0 <= j < doc.Length && j != i ==> doc[j] == old(doc[j])
  {
    var pruned := PruneModifiers(modifiers);
    var modJSON := marshal(pruned);
    doc[i] := Element(doc[i].tag, CreateAttr(doc[i].attrs, "modifiers", modJSON));
  }

  /** The last loop of AddModifiers: every element of the map, in the
      arbitrary order of a Go map range, gets its finalized map written. */
  method WriteModifiers(doc: array<Element>, allModifiers: map<nat, ModMap>, marshal: ModMap -> string)
    requires forall j :: j in allModifiers ==> j < doc.Length
    modifies doc
    ensures forall j :: 0 <= j < doc.Length ==>
      doc[j] == if j in allModifiers then Stamped(old(doc[j]), allModifiers[j], marshal) else old(doc[j])
  {
    ghost var orig := doc[..];
    var pending := allModifiers.Keys;
    while pending != {}
      invariant pending <= allModifiers.Keys
      invariant forall j :: 0 <= j < doc.Length ==>
        doc[j] == if j in allModifiers && j !in pending then Stamped(orig[j], allModifiers[j], marshal) else orig[j]
      decreases pending
    {
      var element :| element in pending;
      WriteModifiersAt(doc, element, allModifiers[element], marshal);
      pending := pending - {element};
    }
  }

  /** An element's starting map in the second loop is its `attrs` seed:
      the seed of an element without `attrs` is all false. */
  lemma SeedOrIsElementAttrs(s: seq<Element>, seeds: map<nat, ModMap>, j: nat,
                             decode: string -> Option<map<string, Domain>>, parseDomain: Domain -> bool)
    requires j < |s|
    requires j in seeds <==> HasAttr(s[j], "attrs")
    requires j in seeds ==> Ok(seeds[j]) == ElementAttrs(s[j], decode, parseDomain)
    ensures ElementAttrs(s[j], decode, parseDomain) == Ok(SeedOr(seeds, j))
  {
  }

  /** AddModifiers: computes the seed of every element that has `attrs`,
      merges the field rules into every field's map, then prunes each map
      and writes it as the element's `modifiers` attribute. An undecodable
      `attrs` aborts before any element changes. */
  method AddModifiers(doc: array<Element>, fieldInfos: map<string, FieldInfo>,
                      decode: string -> Option<map<string, Domain>>, parseDomain: Domain -> bool,
                      marshal: ModMap -> string)
    returns (err: Option<ViewError>)
    requires forall i :: 0 <= i < doc.Length && doc[i].tag == "field" ==> FieldResolves(doc[i], fieldInfos)
    modifies doc
    ensures var bad := FirstBadAttrs(old(doc[..]), decode, parseDomain);
      bad < doc.Length ==>
        && err == Some(ElementAttrs(old(doc[bad]), decode, parseDomain).error)
        && doc[..] == old(doc[..])
    ensures FirstBadAttrs(old(doc[..]), decode, parseDomain) == doc.Length ==>
      && err == None
      && forall i :: 0 <= i < doc.Length ==>
           doc[i] == WithModifiers(old(doc[i]), fieldInfos, decode, parseDomain, marshal)
  {
    ghost var orig := doc[..];
    var seeds;
    seeds, err := CollectAttrs(doc, decode, parseDomain);
    if err.Some? {
      return;
    }
    var allModifiers := MergeFields(doc[..], fieldInfos, seeds);
    WriteModifiers(doc, allModifiers, marshal);
    forall j | 0 <= j < doc.Length
      ensures doc[j] == WithModifiers(orig[j], fieldInfos, decode, parseDomain, marshal)
    {
      SeedOrIsElementAttrs(orig, seeds, j, decode, parseDomain);
    }
  }

  // ---------------------------------------------------------------------------
  // ProcessView

  /** The source's unchecked dereferences on a parsed arch: every field has
      a `name`, every label a `for`, and every field's canonical name has
      metadata in fieldInfos (which the pass never renames). */
  predicate Processable(elements: seq<Element>, fieldInfos: map<string, FieldInfo>, jsonize: string -> string)
  {
    forall i :: 0 <= i < |elements| ==>
      && Nameable(elements[i])
      && (elements[i].tag == "field" ==> jsonize(SelectAttr(elements[i].attrs, "name").value) in fieldInfos)
  }

  /** Every element as UpdateFieldNames leaves it. */
  function RenamedAll(elements: seq<Element>, jsonize: string -> string): seq<Element>
    requires forall i :: 0 <= i < |elements| ==> Nameable(elements[i])
  {
    seq(|elements|, i requires 0 <= i < |elements| => Renamed(elements[i], jsonize))
  }

  /** Every element as AddModifiers leaves it when no `attrs` fails. */
  function WithModifiersAll(elements: seq<Element>, fieldInfos: map<string, FieldInfo>,
                            decode: string -> Option<map<string, Domain>>, parseDomain: Domain -> bool,
                            marshal: ModMap -> string): seq<Element>
    requires forall i :: 0 <= i < |elements| && elements[i].tag == "field" ==> FieldResolves(elements[i], fieldInfos)
    requires forall i :: 0 <= i < |elements| ==> ElementAttrs(elements[i], decode, parseDomain).Ok?
  {
    seq(|elements|, i requires 0 <= i < |elements| => WithModifiers(elements[i], fieldInfos, decode, parseDomain, marshal))
  }

  /** A renamed field resolves in fieldInfos. */
  lemma RenamedResolves(elements: seq<Element>, fieldInfos: map<string, FieldInfo>, jsonize: string -> string)
    requires Processable(elements, fieldInfos, jsonize)
    ensures forall i :: 0 <= i < |elements| && RenamedAll(elements, jsonize)[i].tag == "field" ==>
      FieldResolves(RenamedAll(elements, jsonize)[i], fieldInfos)
  {
    forall i | 0 <= i < |elements| && RenamedAll(elements, jsonize)[i].tag == "field"
      ensures FieldResolves(RenamedAll(elements, jsonize)[i], fieldInfos)
    {
      RenamedLookups(elements[i], jsonize);
    }
  }

  /** The arch handed to the writer: the parsed shape, with the elements
      renamed and then given their modifiers. */
  function PassOutput(tree: Arch, fieldInfos: map<string, FieldInfo>, o: Oracles): Arch
    requires Processable(tree.elements, fieldInfos, o.jsonize)
    requires FirstBadAttrs(RenamedAll(tree.elements, o.jsonize), o.decodeAttrs, o.parseDomain) == |tree.elements|
  {
    var renamed := RenamedAll(tree.elements, o.jsonize);
    RenamedResolves(tree.elements, fieldInfos, o.jsonize);
    Arch(tree.parent, WithModifiersAll(renamed, fieldInfos, o.decodeAttrs, o.parseDomain, o.marshal))
  }

  /** What ProcessView returns: the arch text could not be parsed; the
      first `attrs` that does not decode, in document order; the writer
      failed; or the written arch. */
  function ProcessedView(arch: string, fieldInfos: map<string, FieldInfo>, o: Oracles): Result<string, ViewError>
    requires o.parseArch(arch).Some? ==> Processable(o.parseArch(arch).value.elements, fieldInfos, o.jsonize)
  {
    match o.parseArch(arch)
    case None => Err(UnparsableArch(arch))
    case Some(tree) =>
      var renamed := RenamedAll(tree.elements, o.jsonize);
      var bad := FirstBadAttrs(renamed, o.decodeAttrs, o.parseDomain);
      if bad < |renamed| then Err(ElementAttrs(renamed[bad], o.decodeAttrs, o.parseDomain).error)
      else
        match o.render(PassOutput(tree, fieldInfos, o))
        case None => Err(RenderFailed)
        case Some(text) => Ok(text)
  }

  /** ProcessView: parse the arch, rename fields and labels, add the
      modifiers, write the arch back. Each failure the source logs and
      panics on is an error here. */
  method ProcessView(arch: string, fieldInfos: map<string, FieldInfo>, o: Oracles)
    returns (r: Result<string, ViewError>)
    requires o.parseArch(arch).Some? ==> Processable(o.parseArch(arch).value.elements, fieldInfos, o.jsonize)
    ensures r == ProcessedView(arch, fieldInfos, o)
  {
    var parsed := o.parseArch(arch);
    if parsed.None? {
      return Err(UnparsableArch(arch));
    }
    var tree := parsed.value;
    var doc := new Element[|tree.elements|](i requires 0 <= i < |tree.elements| => tree.elements[i]);
    assert doc[..] == tree.elements;
    UpdateFieldNames(doc, o.jsonize);
    ghost var renamed := RenamedAll(tree.elements, o.jsonize);
    assert doc[..] == renamed;
    RenamedResolves(tree.elements, fieldInfos, o.jsonize);
    var err := AddModifiers(doc, fieldInfos, o.decodeAttrs, o.parseDomain, o.marshal);
    if err.Some? {
      return Err(err.value);
    }
    assert doc[..] == PassOutput(tree, fieldInfos, o).elements;
    var written := o.render(Arch(tree.parent, doc[..]));
    if written.None? {
      return Err(RenderFailed);
    }
    return Ok(written.value);
  }

  /** What renaming and then adding modifiers does to one element. */
  lemma ThroughPass(e: Element, fieldInfos: map<string, FieldInfo>, o: Oracles)
    requires Nameable(e)
    requires e.tag == "field" ==> o.jsonize(SelectAttr(e.attrs, "name").value) in fieldInfos
    requires ElementAttrs(Renamed(e, o.jsonize), o.decodeAttrs, o.parseDomain).Ok?
    ensures Renamed(e, o.jsonize).tag == "field" ==> FieldResolves(Renamed(e, o.jsonize), fieldInfos)
    ensures var out := WithModifiers(Renamed(e, o.jsonize), fieldInfos, o.decodeAttrs, o.parseDomain, o.marshal);
      && out.tag == e.tag
      && (e.tag == "field" ==>
            SelectAttr(out.attrs, "name") == Some(o.jsonize(SelectAttr(e.attrs, "name").value)))
      && (e.tag == "label" ==>
            SelectAttr(out.attrs, "for") == Some(o.jsonize(SelectAttr(e.attrs, "for").value)))
      && (HasAttr(out, "modifiers") <==> Governed(e) || HasAttr(e, "modifiers"))
      && (Governed(e) ==>
            SelectAttr(out.attrs, "modifiers")
              == Some(o.marshal(ElementModifiers(Renamed(e, o.jsonize), fieldInfos, o.decodeAttrs, o.parseDomain).value)))
      && forall k :: k != "modifiers" && !(k == "name" && e.tag == "field") && !(k == "for" && e.tag == "label") ==>
            SelectAttr(out.attrs, k) == SelectAttr(e.attrs, k)
  {
    RenamedLookups(e, o.jsonize);
    WithModifiersLookups(Renamed(e, o.jsonize), fieldInfos, o.decodeAttrs, o.parseDomain, o.marshal);
    assert Governed(Renamed(e, o.jsonize)) == Governed(e);
  }

  /** What the pass does to each element, end to end: the tag and the
      arch's shape stay; a field's `name` and a label's `for` are the
      canonical form of their old value; exactly the fields and the elements
      carrying `attrs` get a `modifiers` attribute, holding the encoding of
      their modifier map; every other attribute reads as before. */
  lemma PassOutputElements(tree: Arch, fieldInfos: map<string, FieldInfo>, o: Oracles, i: nat)
    requires Processable(tree.elements, fieldInfos, o.jsonize)
    requires FirstBadAttrs(RenamedAll(tree.elements, o.jsonize), o.decodeAttrs, o.parseDomain) == |tree.elements|
    requires i < |tree.elements|
    ensures var e := tree.elements[i];
      var out := PassOutput(tree, fieldInfos, o);
      && out.parent == tree.parent && |out.elements| == |tree.elements|
      && RenamedAll(tree.elements, o.jsonize)[i] == Renamed(e, o.jsonize)
      && out.elements[i] == WithModifiers(RenamedAll(tree.elements, o.jsonize)[i], fieldInfos, o.decodeAttrs, o.parseDomain, o.marshal)
  {
    var renamed := RenamedAll(tree.elements, o.jsonize);
    RenamedResolves(tree.elements, fieldInfos, o.jsonize);
    assert renamed[i] == Renamed(tree.elements[i], o.jsonize);
  }
}
