# View-arch pass of the yep-base common mixin

This project models, in Dafny, the pass that the common mixin of yep-base
(`web/defs/common_mixin.go`) applies to a view's XML arch before sending it
to the web client. It also models the small many-to-many rule in the same
file.

- **ProcessView** parses the arch, renames field references and adds
  modifiers. It then writes the arch back.
- **UpdateFieldNames** rewrites the `name` of every `<field>` and the `for`
  of every `<label>` into the model's canonical (JSON) field name.
- **AddModifiers** computes a modifier map for every element that carries an
  `attrs` declaration and for every field. The only modifiers are `readonly`,
  `required` and `invisible`. It writes each map, encoded, as the element's
  `modifiers` attribute. The map goes through these steps:
  - **ProcessElementAttrs** seeds the map from the element's own `attrs`.
  - **ProcessFieldElementModifiers** forces a modifier true for each truthy
    inline attribute, and again for each static `ReadOnly`/`Required` flag of
    the model field.
  - The final loop prunes literal `false` entries. It then drops `required`
    when `invisible` or `readonly` is literally true.
- **NormalizeM2MData** reduces the command triplets a client sends for a
  many-to-many field. The first "replace with" command (code 6) decides the
  kept ids.

## How the model is built

- `etree.dfy` models the part of the etree element API the pass relies on.
  An element has a tag and an ordered attribute list. Lookup and removal act
  on the first attribute with the key. Creation overwrites that attribute in
  place, or appends a new one.
- `modifiers.dfy` holds the reference definitions of the modifier maps, as
  functions, and the lemmas that say what they mean.
  - A modifier value is `Lit(bool)` or `Dom(domain)`.
  - Domains are never evaluated: a domain the parser accepts is stored
    verbatim.
- `view_arch.dfy` holds the pass itself, in imperative form.
  - The document is an `array<Element>` in the order etree's descendant
    searches visit it.
  - The source keys `allModifiers` by element pointer; the model keys it by
    array index.
  - Each loop is a method with its invariants, and each method is proved
    equal to the reference definition.
  - Loops over a Go map pick keys in an arbitrary order (`:|`); the result
    is proved to be the same for every order.
- `m2m.dfy` holds `NormalizeM2MData` as pure functions over decoded JSON
  values, with integer ids.

### Collaborators that are parameters

These are the collaborators the pass calls. The model takes them as
function parameters (`ViewArch.Oracles`):
- `JSONizeFieldName`;
- `domains.ParseDomain`, used only for whether its result is nil;
- `json.Unmarshal` of an `attrs` text (None is a decoding error);
- `json.Marshal` of a modifier map;
- `Document.ReadFromString` and `Document.WriteToString`.

### Where the code is followed over its description

- **Domains are not evaluated.** A modifier holds the verbatim domain from
  `attrs` whenever the domain parser accepts it (common_mixin.go:317-323).
- **`attrs` is not inherited.** A field with no `attrs` of its own starts
  from all-false (common_mixin.go:250-253). A declaration on an enclosing
  element does not reach it.
- **Non-field elements get `modifiers` too.** Every element that carries
  `attrs` receives a `modifiers` attribute (common_mixin.go:245-247,
  257-276). These elements get the pruning and the cross rule, but not the
  field rules.
- **The cross rule beats static Required.** A field that is statically both
  ReadOnly and Required ends with no `required` key.
- **fieldInfos is never renamed.** The doc comment of UpdateFieldNames says
  it updates fieldInfos (common_mixin.go:330), but the code never does. The
  model's UpdateFieldNames has no fieldInfos parameter.
- **A canonical name is still rewritten.** The same doc comment says a field
  name that is already canonical is left alone (common_mixin.go:329). The
  code removes and recreates the attribute regardless (common_mixin.go:335-336),
  which moves it to the end of the attribute list.
  `ViewArch.CanonicalNameStillMoves` shows this on
  `<field name="a" string="x"/>`.

### Panics and nil dereferences

- Each `log.Panic` is an error value (`Modifiers.ViewError`). So is each
  failed type assertion of NormalizeM2MData (`M2m.M2mError`).
- Unchecked nil dereferences become preconditions (`ViewArch.Nameable`,
  `Modifiers.FieldResolves`, `ViewArch.Processable`). The dereferences are a
  field without `name`, a label without `for`, and a field name missing from
  fieldInfos.

## Model

| member | source | states |
|---|---|---|
| Etree.SelectAttrFinds | web/defs/common_mixin.go:333 | A lookup of an attribute succeeds exactly when some attribute carries the key, and the value found belongs to one of the element's attributes. |
| Etree.RemoveAttrLookups | web/defs/common_mixin.go:335 | Removing an attribute leaves every other lookup as it was. On unique keys, the key is gone afterwards and the keys stay unique. |
| Etree.CreateAttrLookups | web/defs/common_mixin.go:336 | After creating an attribute, it reads back the new value, every other lookup is unchanged, and unique keys stay unique. |
| ViewArch.RenameAttrLookups | web/defs/common_mixin.go:335-336 | The remove-then-create rename sets the key to the new value and leaves every other lookup unchanged. |
| ViewArch.RenameAttrMovesToEnd | web/defs/common_mixin.go:335-336 | On unique keys, a rename moves the attribute to the end of the attribute list. |
| ViewArch.RenameAttrTwice | web/defs/common_mixin.go:335-336 | Renaming again to the same value changes nothing, not even attribute order. |
| ViewArch.RenamedLookups | web/defs/common_mixin.go:332-343 | A field's `name` and a label's `for` become the canonical form of their old value. Tags, all other lookups, and elements that are neither fields nor labels are unchanged. |
| ViewArch.RenamedInTwoSteps | web/defs/common_mixin.go:332-343 | The field loop followed by the label loop renames each element exactly once. The label loop's dereference stays safe after the field loop. |
| ViewArch.RenamedIdempotent | web/defs/common_mixin.go:332-343 | For a canonicaliser that maps canonical names to themselves, running the rename a second time changes nothing. This is weaker than the "does nothing if already canonical" promise of the doc comment. |
| ViewArch.CanonicalNameStillMoves | web/defs/common_mixin.go:329-336 | Contrary to the doc comment, a field whose `name` is already canonical is changed: `name` moves behind its other attributes. |
| ViewArch.RenameAt | web/defs/common_mixin.go:333-336 | One loop body: the element at the index has its attribute rewritten through the canonicaliser, and no other element changes. |
| ViewArch.RenameAttrs | web/defs/common_mixin.go:332-337 | One renaming loop: every element with the tag is renamed, and every other element is kept. |
| ViewArch.UpdateFieldNames | web/defs/common_mixin.go:331-344 | Every element of the document ends as its renamed form: fields and labels rewritten, everything else untouched. |
| Modifiers.SeedWithoutAttrs | web/defs/common_mixin.go:307-311 | An element without `attrs`, or with an empty one, is seeded with exactly `{readonly: false, required: false, invisible: false}`. |
| Modifiers.SeedFails | web/defs/common_mixin.go:312-316 | The seed fails exactly when a non-empty `attrs` does not decode, and the error carries that text. |
| Modifiers.SeedFromDomains | web/defs/common_mixin.go:317-323 | A seed has exactly the three modifier keys. Each is the verbatim domain when the parser accepts it, and `false` otherwise. |
| ViewArch.ProcessElementAttrs | web/defs/common_mixin.go:306-325 | The loop over the modifier names, in any order, computes the reference seed, including the empty-attrs and decoding-error cases. |
| ViewArch.ForceInlineModifiers | web/defs/common_mixin.go:287-292 | The loop over the map's keys, in any order, forces to true exactly the modifiers whose inline attribute is truthy. |
| ViewArch.ProcessFieldElementModifiers | web/defs/common_mixin.go:284-300 | Returns the reference field map: inline overrides, then static ReadOnly, then static Required. |
| Modifiers.FieldModifiersValues | web/defs/common_mixin.go:287-299 | Truthy inline attributes and static flags force `true`. Every other modifier keeps its incoming value. The only keys added are those of the static flags, so the field rules never set anything to false. |
| ViewArch.PruneModifiers | web/defs/common_mixin.go:258-272 | Deleting during the map range, in any order, yields the reference finalized map. |
| Modifiers.FinalizedValues | web/defs/common_mixin.go:258-272 | A finalized map has no literal false, and each entry it keeps is unchanged, domains included. Literal `required: true` survives exactly when neither `invisible` nor `readonly` is literally true. |
| Modifiers.FinalizedIdempotent | web/defs/common_mixin.go:258-272 | Finalizing a finalized map changes nothing. |
| Modifiers.FinalizedFlags | web/defs/common_mixin.go:266-272 | For three literal flags, finalizing keeps the true ones but drops `required` beside a true `readonly`. |
| Modifiers.StaticOnly | web/defs/common_mixin.go:294-299 | A field seeded all false, with no truthy inline modifier, holds exactly its static flags. |
| Modifiers.StaticRequired | web/defs/common_mixin.go:294-299 | A static Required ends as a literally true `required` exactly when neither `readonly` nor `invisible` ends up literally true. A read-only required field has no `required` key. |
| Modifiers.InlineAttributeWins | web/defs/common_mixin.go:287-292 | A truthy inline modifier on a field appears as literal `true` in the written map. For `required`, this holds exactly when neither `invisible` nor `readonly` is literally true there. |
| Modifiers.FieldWithoutAttrs | web/defs/common_mixin.go:249-255 | A field with no `attrs` and no truthy inline modifier gets exactly its static flags, as `true`, with `required` dropped when also read-only. Enclosing `attrs` never flow down. |
| Modifiers.NonFieldKeepsDomains | web/defs/common_mixin.go:245-247 | A non-field element's written map holds exactly the modifiers whose domain the parser accepts, as those domains, verbatim. |
| Modifiers.ElementModifiersShape | web/defs/common_mixin.go:257-276 | Every written map has only the three modifier names, no literal false, and never `required` beside a literally true `invisible` or `readonly`. |
| ViewArch.FirstBadAttrs | web/defs/common_mixin.go:245-247 | The first element, in document order, whose `attrs` cannot be decoded: every earlier one decodes. |
| ViewArch.CollectAttrs | web/defs/common_mixin.go:245-247 | The first loop reports the first undecodable `attrs`. Otherwise it holds the seed of exactly the elements that carry `attrs`. |
| ViewArch.MergeFieldAt | web/defs/common_mixin.go:250-254 | One loop body: the field's map, or all false when it has none, goes through the field rules. Every other entry is kept. |
| ViewArch.MergeFields | web/defs/common_mixin.go:249-255 | After the second loop, the map's keys are the seeded elements plus the fields. Each field's entry has been through the field rules. |
| ViewArch.SeedOrIsElementAttrs | web/defs/common_mixin.go:250-253 | A field's starting map is its own `attrs` seed: all false when it has no `attrs`. |
| ViewArch.WriteModifiersAt | web/defs/common_mixin.go:258-275 | One loop body: the element gets the encoding of its finalized map as `modifiers`, and nothing else changes. |
| ViewArch.WriteModifiers | web/defs/common_mixin.go:257-276 | In any iteration order, exactly the elements in the map are stamped with their finalized map, and all others are unchanged. |
| ViewArch.WithModifiersLookups | web/defs/common_mixin.go:257-276 | Exactly the fields and the elements carrying `attrs` receive `modifiers`, holding the encoded element map. Every other attribute and element is left alone. |
| ViewArch.AddModifiers | web/defs/common_mixin.go:242-276 | An undecodable `attrs` aborts with that error before any element changes. Otherwise every element ends as the reference per-element result. |
| ViewArch.ProcessView | web/defs/common_mixin.go:223-237 | Returns the reference result: a parse error, the first `attrs` error, a write error, or the text of the renamed and annotated arch. |
| ViewArch.ThroughPass | web/defs/common_mixin.go:230-231 | End to end, for one element: the tag stays, and `name`/`for` are canonicalised. Exactly fields and `attrs` carriers gain `modifiers`, holding the encoded modifier map of the renamed element. Every other attribute reads as before. |
| ViewArch.PassOutputElements | web/defs/common_mixin.go:229-233 | The arch handed to the writer keeps the parsed shape. Its element at each position is the renamed, then annotated, input element. |
| M2m.ScanCommands | web/defs/common_mixin.go:130-148 | The loop finds no command exactly when every triplet has a readable code other than 6. Any error it reports names one of the triplets. |
| M2m.NormalizeM2MData | web/defs/common_mixin.go:119-151 | A non-list comes back unchanged, and an empty list becomes the empty set. Otherwise the result is decided by the first triplet with code 6 or no readable code: none gives the value unchanged, and a malformed one gives an error. Code 6 gives the records with its ids, or an error when the ids are malformed. |
| M2m.NumbersOf | web/defs/common_mixin.go:141-145 | The id list converts exactly when every item is a number, and then holds those numbers in order. |
| M2m.FirstStop | web/defs/common_mixin.go:130-148 | The scan stops at the first triplet with code 6 or without a readable code. Every triplet before it carries another readable code. |
| M2m.ScanStopsAtFirst | web/defs/common_mixin.go:130-148 | The loop's outcome is decided by the triplet where it stops: no command, a malformed triplet, malformed ids, or the id list. |
| M2m.FirstReplaceWins | web/defs/common_mixin.go:140-146 | When the first code-6 triplet follows only readable non-6 codes, the result is the records with its ids. |
| M2m.RecordsComeFromFirstReplace | web/defs/common_mixin.go:140-146 | Conversely, a record-set result comes from the first stopping triplet, which has code 6 and exactly those ids. |
| M2m.UnchangedWithoutReplace | web/defs/common_mixin.go:123-150 | An empty list becomes the empty set. A non-list value, or a list of well-formed triplets without code 6, comes back unchanged. |
| M2m.ScanIgnoresTail | web/defs/common_mixin.go:130-147 | Nothing after the first stopping triplet affects the result. |

## Left out

- XML parsing and writing (`ReadFromString`, `WriteToString`) are function parameters, with None as the failure that the source logs and panics on. The tree shape (parent indices) passes through the pass untouched.
- Namespace prefixes on attribute keys are not modelled: a key is its whole text.
- The JSON decoding of `attrs` and the JSON encoding of a modifier map are function parameters. The model states which map is encoded, not its bytes.
- `JSONizeFieldName` and `domains.ParseDomain` are uninterpreted. Only whether `ParseDomain`'s result is nil is used.
- The log fields of each panic (model name, arch text) are not modelled. Only the failing `attrs` text or arch text is carried.
- ViewArch.RenamedIdempotent: states idempotence of the rename, not the doc comment's "an already canonical name is left alone", because the code does not keep that promise (see ViewArch.CanonicalNameStillMoves).
- ViewArch.UpdateFieldNames, ViewArch.ProcessView: a field without `name`, a label without `for`, and a canonical field name missing from fieldInfos are nil dereferences in the source. The model does not model those crashes; it excludes them by preconditions (`ViewArch.Nameable`, `ViewArch.Processable`, `Modifiers.FieldResolves`).
- ViewArch.UpdateFieldNames: takes no fieldInfos parameter, because the source never reads or writes it.
- NormalizeM2MData: `float64` to `int64` conversion of codes and ids is not modelled, and JSON numbers are integers. The relation's record set and its search are the values `EmptySet` and `RecordsWithIds(ids)`, not queries.
- Go map aliasing: in the source, ProcessFieldElementModifiers mutates the very map stored in `allModifiers`. The model passes the map by value and stores the result back, which produces the same final map.
- The rest of `common_mixin.go` is not part of this model (record Create/Write/Read extensions, name search, data-value processing, SearchRead, ReadGroup, FieldsViewGet, GetToolbar, GetFormviewAction). These are record lookups and registry calls into an ORM this model does not define. `base/yep.go`, `base/defs/group.go` and `web/controllers/action.go` are not part of this model either.
