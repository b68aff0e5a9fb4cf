# SettingsFramework core, modelled in Dafny

This project models the logic core of the WordPress `SettingsFramework`
class (`src/SettingsFramework/SettingsFramework.php`). A host plugin
registers a settings schema, made of sections, fields and optional tabs,
for one option group. The framework then does the following:

- derives a stable storage key and a form name for each field;
- resolves the effective settings by layering the stored option over field
  defaults, and memoises the result;
- sorts sections by `section_order` and registers the visible sections and
  fields;
- compiles `show_if` / `hide_if` condition trees into CSS class strings;
- names the rows and subfields of repeatable group fields;
- maps a field type to its generator method;
- imports a settings blob, all or nothing.

The modules follow the class's structure:

| file | module | contents |
|---|---|---|
| `php_values.dfy` | `PhpValues` | PHP values and the built-ins whose exact behaviour matters: `empty()`, `isset`, `??`, `array_values`, `(array)`, `%d`, `str_replace('_','-')`, case-insensitive method names |
| `schema.dfy` | `Schema` | schema datatypes, `has_tabs`, `tab_has_settings`, the key formula, `generate_field_name`, the page slug and page name, the `sort_array` comparator, `wpsf_get_setting` |
| `show_hide.dfy` | `ShowHide` | `add_show_hide_classes`: its loops as methods, proved equal to functions stating what each accumulator holds, with lemmas relating the output to a plain OR/AND serialisation |
| `resolver.dfy` | `Resolver` | what `get_settings` computes and what `get_option` reads |
| `registry.dfy` | `FieldRegistry` | `do_field_method` as a finite registry lookup |
| `group_rows.dfy` | `GroupRows` | `generate_group_field` and `generate_group_row_template`: ids, names, values and row classes |
| `framework.dfy` | `Framework` | `class SettingsFramework`: constructor, `construct_settings`, `get_settings` with its cache as fields, `process_settings`, `generate_setting`, `import_settings` |

State the source updates in place is a field of the class:

- `settings`, `tabs` and `settingsPageSlug` are the schema the instance holds.
- `stored` is the `{group}_settings` option.
- `cache` and `cacheRaw` are `get_settings`' function-static arrays.
- `options` stands for the class-static array `get_option` reads, kept here as a field of the instance.
- `registered` records the `add_settings_section` / `add_settings_field` calls.

The loops of `get_settings`, `process_settings`, `add_show_hide_classes` and
`generate_group_*` are methods. Each is proved equal to a specification
function, and the properties are proved about those functions.

Places where the code's behaviour differs from what one might expect from
its description; the model follows the code in each case:

- `sort_array` does not treat a missing `section_order` as 0. PHP compares
  `int > null` as booleans, so an order of -1 sorts after a section without
  an order (`Schema.MissingOrderIsNotZero`).
- The key formula `tab_section_field` is not injective when ids contain `_`
  (`Schema.SettingKeyCollision`). It is injective when tab and section ids
  have no `_` (`Schema.SettingKeyInjective`).
- When nothing is stored and there is no default, a rendered field shows `""`
  while `get_settings` holds `false` (`Framework.RenderFallbackDiffers`).
  Only the resolver re-indexes array defaults.
- Group rows are looked up by row number used as a key (`$value[$row]`), not
  by walking the stored keys. Rows stored under keys 0 and 2 render as two
  rows; the second of them is blank, and the entry under key 2 is never shown
  (`GroupRows.SparseRowsLeaveGaps`).
- When the group is already in `get_settings`' cache at construction,
  `get_option`'s static becomes the cached prefixed map, whose keys are not
  bare field ids, so `get_option` returns the caller's default although a
  value is stored (`Resolver.CachedGroupHidesOptions`).
- Once a group is cached, `get_settings(true)` returns the prefixed map
  (`Framework.ReadSettingsTwice`). An import is not visible through the
  cache (`Framework.ImportThenRead`).

## Model

| member | source | states |
|---|---|---|
| PhpValues.LookupFound | src/SettingsFramework/SettingsFramework.php:833 | reading `$a[$k]` gives the value of the first entry with key k |
| PhpValues.LookupMissing | src/SettingsFramework/SettingsFramework.php:852 | reading an absent key gives null, which `??` and `isset` treat as unset |
| PhpValues.NatToString | src/SettingsFramework/SettingsFramework.php:853-854 | `%d` of a row index is a non-empty string of digits |
| PhpValues.NatToStringRoundTrip | src/SettingsFramework/SettingsFramework.php:853-854 | the printed row index reads back as the same number |
| PhpValues.NatToStringInjective | src/SettingsFramework/SettingsFramework.php:853-854 | distinct row indexes print as distinct texts |
| PhpValues.ReplaceUnderscores | src/SettingsFramework/SettingsFramework.php:198-205 | `str_replace('_','-')` keeps the length, leaves no `_`, turns each `_` into `-` and keeps every other character |
| Schema.TabHasSettings | src/SettingsFramework/SettingsFramework.php:1465-1483 | true exactly when some section's `tab_id` is identical to the tab id |
| Schema.TabsDecideLayout | src/SettingsFramework/SettingsFramework.php:1488-1496 | `has_tabs` is true exactly for a non-empty tab list; with tabs a section goes to page `{group}_{tab_id}` and its keys carry the tab id in front, without tabs the page is the group and keys are `section_field` |
| Schema.FieldName | src/SettingsFramework/SettingsFramework.php:1272-1275 | the key can be read back from the form name `{group}_settings[{key}]` |
| Schema.FieldNameInjective | src/SettingsFramework/SettingsFramework.php:1272-1275 | two keys of one group never share a form name |
| Schema.PageSlug | src/SettingsFramework/SettingsFramework.php:198-205 | the slug has no `_`, starts with the group with `_` replaced by `-`, and ends with `-settings` unless on the ClassicPress security page |
| Schema.PageNameSeparatesTabs | src/SettingsFramework/SettingsFramework.php:447 | two tabbed pages of a group are the same exactly when their tab ids are, and a tabbed page is never the untabbed group page |
| Schema.SettingKeyShape | src/SettingsFramework/SettingsFramework.php:1348 | the key is `{tab}_{section}_` (tabbed) or `{section}_` followed by the field id, and splits back into that prefix and the id |
| Schema.SettingKeyInjective | src/SettingsFramework/SettingsFramework.php:1348 | with no `_` in tab and section ids, equal keys mean the same tab, section and field ids |
| Schema.SettingKeyCollision | src/SettingsFramework/SettingsFramework.php:547 | with `_` in ids, distinct (section, field) pairs share a key, with and without tabs |
| Schema.TabbedKeyExtendsUntabbed | src/SettingsFramework/SettingsFramework.php:547 | the tabbed key is the tab id plus `_` in front of the untabbed key |
| Schema.SortArray | src/SettingsFramework/SettingsFramework.php:523-531 | the comparator returns only 0 or 1, returns 0 when a has no `section_order`, and returns 1 exactly when a's order is greater than b's under PHP's comparison with a missing order |
| Schema.MissingOrderIsNotZero | src/SettingsFramework/SettingsFramework.php:523-531 | order -1 compares greater than a missing order but not greater than order 0 |
| Schema.GetSetting | src/SettingsFramework/SettingsFramework.php:1669-1678 | `wpsf_get_setting` never returns null; it returns the set value stored under `{section}_{field}`, and anything else it returns is false |
| Schema.GetSettingTabbed | src/SettingsFramework/SettingsFramework.php:1669-1678 | passing `{tab}_{section}` as the section reads a tabbed field's key |
| ShowHide.BuildValueString | src/SettingsFramework/SettingsFramework.php:1515-1523 | the OR loop builds the value string `JoinValues` describes |
| ShowHide.BuildAndString | src/SettingsFramework/SettingsFramework.php:1532-1559 | the AND loop builds the string `AndString` describes, skipping clauses without `field` or `value` |
| ShowHide.BuildConditionClass | src/SettingsFramework/SettingsFramework.php:1513-1565 | one condition adds `slug--field===values` or `slug--andstring`, and adds nothing when that text is empty |
| ShowHide.BuildPassClasses | src/SettingsFramework/SettingsFramework.php:1508-1567 | one pass emits the bare slug, then each condition's class in order, and nothing when the key is not an array |
| ShowHide.AddShowHideClasses | src/SettingsFramework/SettingsFramework.php:1504-1576 | the result is the show pass followed by the hide pass; the hide_if call does not recurse |
| ShowHide.JoinValuesEmptiness | src/SettingsFramework/SettingsFramework.php:1518-1527 | the value string is empty() exactly when the values concatenate to an empty() text |
| ShowHide.JoinValuesIsPlainJoin | src/SettingsFramework/SettingsFramework.php:1515-1523 | when the first value is not empty(), the value string is the `||` join of all values and is not empty |
| ShowHide.JoinValuesQuirks | src/SettingsFramework/SettingsFramework.php:1518-1522 | a leading `"0"` is concatenated with no separator, a leading `""` is dropped, and an inner `""` leaves `||||` |
| ShowHide.SingleClauseClass | src/SettingsFramework/SettingsFramework.php:1513-1528 | a single clause whose first value is not empty() compiles to `slug--field===v1\|\|v2…` |
| ShowHide.SingleClauseSilent | src/SettingsFramework/SettingsFramework.php:1525-1528 | a single clause emits nothing exactly when its values concatenate to `""` or `"0"` |
| ShowHide.AndStringSkipsIncomplete | src/SettingsFramework/SettingsFramework.php:1535-1538 | a clause lacking `field` or `value` leaves the AND string unchanged |
| ShowHide.AndStringDropIncomplete | src/SettingsFramework/SettingsFramework.php:1535-1538 | a clause lacking `field` or `value` anywhere in the list leaves the AND string as if it were absent |
| ShowHide.AndStringOfComplete | src/SettingsFramework/SettingsFramework.php:1532-1559 | the AND string of a list equals that of its complete clauses alone (`CompleteClauses` keeps exactly the clauses with both keys set) |
| ShowHide.AndStringIsPlainJoin | src/SettingsFramework/SettingsFramework.php:1532-1559 | complete clauses whose first values are not empty() give the `&&` join of their `field===values` texts |
| ShowHide.AndStringTrailingSeparator | src/SettingsFramework/SettingsFramework.php:1540-1558 | `&&` is written before the next clause's values are checked, so a clause with an empty value list leaves a trailing `&&` |
| ShowHide.AndConditionClass | src/SettingsFramework/SettingsFramework.php:1532-1564 | an AND condition compiles to `slug--f1===…&&f2===…` over its complete clauses only, skipping the incomplete ones, when those have good values |
| ShowHide.SlugTexts | src/SettingsFramework/SettingsFramework.php:1507 | the slugs are ` show-if` and ` hide-if` |
| ShowHide.ShowHideLayout | src/SettingsFramework/SettingsFramework.php:1504-1576 | the result is `""` with neither key an array, the show part comes first, and the hide pass is appended once |
| Resolver.NormalisedDefault | src/SettingsFramework/SettingsFramework.php:1343-1346 | a default that is not an array is kept unchanged, an array default becomes its `array_values` (an empty one stays empty), and the default is set exactly when the field's is |
| Resolver.EffectiveValue | src/SettingsFramework/SettingsFramework.php:1350-1359 | every resolved value is set: the set stored value if any, else the normalised default if the field has one, else false |
| Resolver.GetOption | src/SettingsFramework/SettingsFramework.php:1646-1654 | the result is the caller's default or a non-empty value held under the field id, and a non-empty held value always wins |
| Resolver.OverlayDomain | src/SettingsFramework/SettingsFramework.php:1352-1358 | after the writes, a key is present exactly when it was present before or was written |
| Resolver.OverlayLast | src/SettingsFramework/SettingsFramework.php:1352-1358 | the last write to a key wins |
| Resolver.OverlayUntouched | src/SettingsFramework/SettingsFramework.php:1353 | a bare-id entry no field writes keeps its earlier value |
| Resolver.OverlayValueOrigin | src/SettingsFramework/SettingsFramework.php:1352-1358 | every resulting value was written by some entry or was there before |
| Resolver.FieldEntriesMembership | src/SettingsFramework/SettingsFramework.php:1341-1360 | the inner walk visits exactly the section's fields, each with its key, id and effective value |
| Resolver.EntriesMembership | src/SettingsFramework/SettingsFramework.php:1334-1361 | the walk visits exactly the fields of sections whose `fields` is not empty |
| Resolver.ResolvedDomain | src/SettingsFramework/SettingsFramework.php:1334-1361 | the resolved map's keys are exactly the derived keys of fields of sections with fields |
| Resolver.ResolvedValue | src/SettingsFramework/SettingsFramework.php:1350-1359 | every resolved value is the effective value of some field with that key |
| Resolver.StoredValueWins | src/SettingsFramework/SettingsFramework.php:1350-1353 | a set stored value under a schema key is the resolved value |
| Resolver.UnknownStoredKeysDropped | src/SettingsFramework/SettingsFramework.php:1334-1361 | stored keys that no schema field derives never appear |
| Resolver.ResolvedPrecedence | src/SettingsFramework/SettingsFramework.php:1343-1359 | with consistent defaults: stored if set, else the normalised default if set, else false |
| Resolver.RawMatchesPrefixed | src/SettingsFramework/SettingsFramework.php:1352-1358 | the bare-id map holds the last same-id field's value, equal to the prefixed value when that field is also last for its key |
| Resolver.GetOptionReadsEffective | src/SettingsFramework/SettingsFramework.php:1646-1654 | after a construction that resolved the group itself (not already cached), over any earlier raw static, get_option gives the field's effective value unless it is empty(), else the default |
| Resolver.CachedGroupHidesOptions | src/SettingsFramework/SettingsFramework.php:168 | after a construction that found the group cached, get_option reads the prefixed map and returns the default although a value is stored; after a fresh resolution it returns that value |
| Resolver.GetSettingAgreesWhenStored | src/SettingsFramework/SettingsFramework.php:1669-1678 | `wpsf_get_setting` agrees with the resolver on untabbed keys with a set stored value |
| FieldRegistry.Dispatch | src/SettingsFramework/SettingsFramework.php:567-575 | the generator is g exactly when the lower-cased type is g's tag, and some generator runs exactly when `method_exists` finds `generate_{type}_field` |
| FieldRegistry.RegisteredSound | src/SettingsFramework/SettingsFramework.php:567-575 | a generator is registered only under its own tag |
| FieldRegistry.DispatchTag | src/SettingsFramework/SettingsFramework.php:567-575 | each generator is reached by its tag |
| FieldRegistry.RegisteredIff | src/SettingsFramework/SettingsFramework.php:567-575 | the registry holds each generator under its own tag and no other |
| FieldRegistry.RegisteredMatchesMethodExists | src/SettingsFramework/SettingsFramework.php:569-574 | a generator is registered under the lower-cased type exactly when `method_exists` finds `generate_{type}_field`, ignoring case |
| FieldRegistry.DispatchExamples | src/SettingsFramework/SettingsFramework.php:567-575 | `Text` and `GROUP` reach their generators; `slider` and `""` render nothing |
| GroupRows.RowCount | src/SettingsFramework/SettingsFramework.php:707-708 | as many rows as the `(array)` value has entries, and exactly one row when it has none |
| GroupRows.GenerateGroupRowTemplate | src/SettingsFramework/SettingsFramework.php:830-882 | builds the row `RowTemplateFor` describes; no subfields gives no row (`false`) |
| GroupRows.GenerateGroupField | src/SettingsFramework/SettingsFramework.php:705-726 | `RowCount` rows, row r built for r, then a blank template for row 0 |
| GroupRows.RowIdPreserved | src/SettingsFramework/SettingsFramework.php:833-834 | a row's id is its stored non-empty `row_id`, else the row index; the blank template's is `""` |
| GroupRows.BlankTemplateIsEmpty | src/SettingsFramework/SettingsFramework.php:852 | the blank template is row 0 and every subfield value in it is `""` |
| GroupRows.RowSubfieldValue | src/SettingsFramework/SettingsFramework.php:852 | a subfield shows the stored `value[row][sub]` when set, else `""` |
| GroupRows.ContiguousRowsAllShown | src/SettingsFramework/SettingsFramework.php:707-723 | with rows keyed 0, 1, 2, … every stored row is rendered with its values and `row_id` |
| GroupRows.RowClassesAlternate | src/SettingsFramework/SettingsFramework.php:838 | even rows are `alternate`, and neighbouring rows differ |
| GroupRows.SubfieldNameInjective | src/SettingsFramework/SettingsFramework.php:853 | `{name}[r][sub]` names never collide across rows or subfield ids |
| GroupRows.SubfieldDomIdInjective | src/SettingsFramework/SettingsFramework.php:854 | `{id}_{r}_{sub}` ids never collide across rows or subfield ids |
| GroupRows.SparseRowsLeaveGaps | src/SettingsFramework/SettingsFramework.php:707-723 | rows stored under keys 0 and 2 give two rows; row 1 is blank with id 1 |
| Framework.FieldRegistrationsMembership | src/SettingsFramework/SettingsFramework.php:455-508 | a section registers exactly its fields with a truthy id |
| Framework.ShownFieldIsRegistered | src/SettingsFramework/SettingsFramework.php:443-512 | every field with a truthy id in a section with a truthy id and a title is registered on that section's page |
| Framework.RegisteredFieldOrigin | src/SettingsFramework/SettingsFramework.php:443-512 | every registered field comes from such a section, with its page name and `hidden` row class |
| Framework.HiddenSectionRegistersNothing | src/SettingsFramework/SettingsFramework.php:445-449 | only sections with a truthy id and a title are registered |
| Framework.RowClass | src/SettingsFramework/SettingsFramework.php:493 | the row class is `hidden` exactly when the type is identical to `hidden`, and `""` otherwise |
| Framework.HiddenRowClassIsCaseSensitive | src/SettingsFramework/SettingsFramework.php:493 | a field of type `Hidden` gets no `hidden` row class, though dispatch sends it to the hidden generator |
| Framework.ApplyExchange | src/SettingsFramework/SettingsFramework.php:441 | a modelled sort exchange keeps the sections' multiset, and is made only on a pair sort_array orders |
| Framework.UnorderedSectionsStay | src/SettingsFramework/SettingsFramework.php:441 | with no `section_order` anywhere, no exchange happens |
| Framework.RenderKey | src/SettingsFramework/SettingsFramework.php:543-547 | for a field with an id, the render key is the resolver's key |
| Framework.Render | src/SettingsFramework/SettingsFramework.php:538-556 | the form name maps back to the id, the resolver's key for fields with ids; the value is the set stored value, else the set default, else `""`; the class is the field's class followed by the show/hide classes; the generator is the one whose tag the type is, up to case |
| Framework.RegisteredFieldRendersResolvedKey | src/SettingsFramework/SettingsFramework.php:547 | a registered field renders under a key the resolver holds, and a set stored value is shown as resolved |
| Framework.RenderFallbackDiffers | src/SettingsFramework/SettingsFramework.php:548 | without a default and with nothing stored, the form shows `""` while the resolver holds false |
| Framework.ImportDecision | src/SettingsFramework/SettingsFramework.php:1615-1633 | ignored exactly on a group mismatch; imported exactly with a group match, a truthy valid nonce, a string payload and an array decode |
| Framework.SettingsFramework.constructor | src/SettingsFramework/SettingsFramework.php:106-168 | an empty option group is fatal; the schema and slug come from `construct_settings`; the static options are `get_settings(true)` |
| Framework.SettingsFramework.ConstructSettings | src/SettingsFramework/SettingsFramework.php:176-206 | a wrapper with `sections` gives tabs and sections, otherwise it is the section list; the slug is `PageSlug` |
| Framework.SettingsFramework.GetSettings | src/SettingsFramework/SettingsFramework.php:1318-1367 | a cached group returns the cached map with no state change; otherwise the resolution is cached and the raw map is extended |
| Framework.SettingsFramework.ProcessSettings | src/SettingsFramework/SettingsFramework.php:436-514 | the sections are permuted, stay in place when none has an order, and are registered as `Registrations` states |
| Framework.SettingsFramework.ImportSettings | src/SettingsFramework/SettingsFramework.php:1609-1636 | the stored option is replaced by the decoded data on import and is unchanged otherwise |
| Framework.SettingsFramework.GenerateSetting | src/SettingsFramework/SettingsFramework.php:538-556 | prepares the field's id, value, name, class and generator as `Render` states |
| Framework.ResolveSections | src/SettingsFramework/SettingsFramework.php:1334-1361 | the loops build `Resolved` and `RawAfter` |
| Framework.ResolveFields | src/SettingsFramework/SettingsFramework.php:1341-1360 | the inner loop writes each field's entry under its key and its bare id |
| Framework.RegisterSections | src/SettingsFramework/SettingsFramework.php:443-512 | the registration loop records `Registrations` |
| Framework.RegisterFields | src/SettingsFramework/SettingsFramework.php:455-508 | the field loop records `FieldRegistrations` |
| Framework.ReadSettingsTwice | src/SettingsFramework/SettingsFramework.php:1326-1329 | the first unprefixed read gives the raw map, and the second gives the prefixed map |
| Framework.ImportThenRead | src/SettingsFramework/SettingsFramework.php:1326-1329 | after an import, a cached group still reads the map resolved before it |

## Left out

- HTML and JavaScript output of every renderer, the settings page, tabs and headers. Only the derived ids, names, values and classes are modelled.
- WordPress hooks and filters (`apply_filters`, `do_action`), including the `wpsf_defaults_{group}` filter. The setting defaults are the built-in ones.
- Menu registration, script enqueueing, capability checks, `esc_attr`/`esc_html` escaping and `stripslashes`.
- Reading and writing options. `get_option`/`update_option` are the `stored` field.
- `wp_die` on an empty option group is a precondition of the constructor.
- `wp_verify_nonce` is the boolean input `nonceValid`. `filter_input` results are optional inputs.
- `json_decode` is the optional decoded map, where None means "not an array". JSON itself, and `export_settings`, are not modelled.
- Framework.SettingsFramework.ProcessSettings: PHP `usort`'s algorithm is not modelled. The exchanges are an input. Restricting them to pairs the comparator orders is a choice of this model, not a guarantee of the source: PHP's sort may move a section past one it never compared. The proved properties are the permutation and, with no section ordered, the unchanged order (PHP 8's sort is stable); sortedness is not proved.
- Framework.ApplyExchange: stands for one step of a sort under the restriction above, not for PHP's own exchanges.
- Framework.SettingsFramework.constructor: the class-static `$options` that `get_option` reads is a field of each instance here. In the source, every construction of any instance overwrites it, so `get_option` reads whichever group was constructed last; that replacement across instances is not modelled.
- Framework.SettingsFramework.GetSettings: the function-static caches are per instance here. The source shares them between all instances, and `$settings_raw` even between groups. The constructor takes their earlier contents as inputs, which covers what one instance sees.
- Field titles, subtitles, links and tooltips built in `process_settings` are not recorded, because they are presentation.
- The constructor's settings-file checks, `settings_validate`, `generate_custom_field` callbacks, `get_admin_color`, and the file, colour and editor widgets are not modelled.
- Non-array wrappers (the constructor's `WP_Error` branch) are not modelled. PHP values that are not strings, such as ids that are numbers, are not modelled either.
- PHP's normalisation of numeric-string array keys to integers is not modelled. Subfield and bare field ids are string keys.
- Reading a row from a scalar group value is read as missing. PHP would take a string offset.
- PhpValues.Lower: ASCII case folding only, which is what PHP applies to method names.
