# Bulk-load statement builder

A model of the record-to-CQL layer of MagnetoDB's bulk-load proof of concept
(`poc/bulk_load/bulk_load_server.py`). The loader reads JSON records, decodes each
attribute's tagged value, and writes the record into a Cassandra table with an optimistic
protocol. The protocol has three steps:

- a conflict-check SELECT on the key attributes and the sentinel index slot;
- an INSERT that spreads the record over declared `user_<name>` columns and three dynamic
  companion collections;
- a retry from the read whenever the conditional write did not apply.

The project has five modules:

- `PyRuntime` (`pyruntime.dfy`): the slice of Python 2 the code relies on. It covers the
  values the encoders pass around, their exceptions, `str.join`, iteration, `list.remove`,
  `str(int)` and `int(str)`.
- `Hex` (`hex.dfy`): `binascii.hexlify`, with `unhexlify` as its inverse.
- `AttrCodec` (`codec.dfy`): `parse_attr_val` and `_json_to_attribute_map`, the
  declared-column encoders `_encode_single_value_as_predefined_attr` and
  `_encode_predefined_attr_value`, and the dynamic encoder `_encode_dynamic_attr_value`.
- `Statements` (`statements.dfy`): the SELECT builders `_make_key_conditions`,
  `_make_index_conditions`, `_make_default_index_conditions` and `_make_read_query`, and the
  INSERT builders `_make_main_insert_query` and `_make_insert_query`.
- `CasResult` (`cas.dfy`): `_is_applied` and the retry decision of `_cb_insert`.

The pure parts are functions. The statement builders append to lists step by step, so they
are methods: `MakeReadQuery`, `CollectDeclared`, `CollectDynamic`, `AppendSystemColumns`,
`CollectColumns`, `MakeMainInsertQuery` and `MakeInsertQuery`. Each is proved equal to a
specification function, such as `KeyConditions` or `MainInsertText`. Lemmas state what the
source promises about those functions.

Some things are not fixed by the source, so they become parameters:

- The iteration orders of `attribute_type_map` and of `attr_map.keys()` are parameters
  (`declOrder`, `keyOrder`) that must enumerate the dict's keys. Lemmas state field
  positions relative to these enumerations, never as a fixed order.
- `base64.decodestring` and `ujson.dumps` are function parameters.
- The `impl.SYSTEM_COLUMN_*` names are a `SystemColumns` record. The proofs assume only that
  its seven names are distinct and carry no `user_` prefix.

## Model

| member | source | states |
|---|---|---|
| PyRuntime.JoinSnoc | poc/bulk_load/bulk_load_server.py:294-302 | appending a part to a joined list adds one separator and the part to the end of the joined text, so a builder grown by `append` and joined at the end reads as one growing string |
| PyRuntime.IterateRejoins | poc/bulk_load/bulk_load_server.py:157-162 | `for v in value` over a text visits its characters in order: joining what the loop sees gives the text back |
| PyRuntime.RemoveFirst | poc/bulk_load/bulk_load_server.py:257 | `list.remove` shortens the list by one and removes one occurrence of the name |
| PyRuntime.RemoveFirstDropsFirst | poc/bulk_load/bulk_load_server.py:257 | `list.remove` drops exactly the first occurrence of the name: the elements before it and after it stay, in order |
| PyRuntime.ParseIntText | poc/bulk_load/bulk_load_server.py:74-79 | `int(str(i)) == i` for every integer, with `int()` modelled as Python 2 reads base-10 text |
| Hex.Hexlify | poc/bulk_load/bulk_load_server.py:177 | hexlify writes two lower-case hex digits per byte |
| Hex.UnhexlifyHexlify | poc/bulk_load/bulk_load_server.py:177 | the digits of a blob literal decode back to exactly the bytes they were made from |
| Hex.HexlifyUnhexlify | poc/bulk_load/bulk_load_server.py:184-185 | every even-length lower-case hex string is the hexlify of the bytes it stands for, so hexlify is a bijection onto such strings |
| AttrCodec.ParseTag | poc/bulk_load/bulk_load_server.py:64-81 | exactly the six tag strings select a branch, and the tag read back is the string given |
| AttrCodec.ElementTag | poc/bulk_load/bulk_load_server.py:159 | `attr_type[0]` of any tag is `S`, `N` or `B` |
| AttrCodec.QuotedCassandraType | poc/bulk_load/bulk_load_server.py:42-58 | the quoted type table is the plain type table with each entry in single quotes |
| AttrCodec.ParseInts | poc/bulk_load/bulk_load_server.py:74-79 | `[int(v) for v in val]` succeeds exactly when every element parses; it keeps the length and maps each element to its value; otherwise ValueError |
| AttrCodec.DecodeAll | poc/bulk_load/bulk_load_server.py:80-84 | `[base64.decodestring(v) for v in val]` succeeds exactly when every element decodes, element by element, with the same length |
| AttrCodec.ParseAttrVal | poc/bulk_load/bulk_load_server.py:61-85 | the first entry's tag comes back unchanged. S, N and SS pass the raw value through. B base64-decodes a string. NS applies int() and BS base64-decodes per element, same length. An empty object raises StopIteration, and any other tag leaves `attr_val` unbound |
| AttrCodec.JsonToAttributeMap | poc/bulk_load/bulk_load_server.py:88-93 | the record decodes exactly when every attribute does; the result has exactly the input's names, each with its own decoded pair |
| AttrCodec.DecodeExternalized | poc/bulk_load/bulk_load_server.py:61-85 | decoding inverts the external encoding of every well-formed value for every tag, given a base64 decoder that inverts its encoder |
| AttrCodec.EncodeSingle | poc/bulk_load/bulk_load_server.py:170-179 | S gives `'` + text + `'` with no escaping. N passes text through. B gives `0x` + hex whose digits decode to the bytes, and fails exactly on a non-bytes value. Any other tag is an assertion failure |
| AttrCodec.EncodeSingleAsWritten | poc/bulk_load/bulk_load_server.py:170-179 | the encoder as written agrees with the corrected one on every value that is not an integer; under `N` an integer comes back as a value that is not text |
| AttrCodec.EncodeAll | poc/bulk_load/bulk_load_server.py:158-162 | the comprehension succeeds exactly when every element encodes; it has one literal per element, in order |
| AttrCodec.EncodePredefined | poc/bulk_load/bulk_load_server.py:154-167 | None gives `null`. A scalar tag delegates to the single encoder. A set gives `{` + the comma-joined element literals under `attr_type[0]` + `}`, one per element |
| AttrCodec.EncodeDynamic | poc/bulk_load/bulk_load_server.py:182-185 | None gives `null`. Otherwise it succeeds exactly when the serialiser does, and gives a blob literal whose digits decode to the serialised bytes |
| AttrCodec.AsWrittenAgreesOffNumberSets | poc/bulk_load/bulk_load_server.py:154-179 | on every well-formed (`Canonical`) value of a type other than `NS`, `_encode_predefined_attr_value` as written gives the same literal as the corrected encoder |
| AttrCodec.NumberSetsAsWrittenRaise | poc/bulk_load/bulk_load_server.py:154-174 | as written, `_encode_predefined_attr_value` raises TypeError in `','.join` for every well-formed (`Canonical`) non-empty `NS` value |
| AttrCodec.DecodedNeverInteger | poc/bulk_load/bulk_load_server.py:61-85 | no value `parse_attr_val` returns is a bare integer, so on every decoded value `_encode_single_value_as_predefined_attr` as written (line 174) gives what the corrected encoder gives |
| AttrCodec.WellFormedEncodes | poc/bulk_load/bulk_load_server.py:154-179 | every well-formed (`Canonical`) value, and None, has a declared-column literal, and that literal is text |
| AttrCodec.UnescapedSetLiteralsCollide | poc/bulk_load/bulk_load_server.py:171 | without quote escaping, the one-element text set `a','b` and the two-element set `a`, `b` get the same literal `{'a','b'}` |
| AttrCodec.NumberSetAsWrittenFails | poc/bulk_load/bulk_load_server.py:74-174 | `{"NS": ["1"]}` decodes to `[1]`; the encoder as written then raises TypeError in `','.join`, while the corrected one gives `{1}` |
| Statements.KeyTermsOk | poc/bulk_load/bulk_load_server.py:200-209 | the key terms fail exactly when the term of a key attribute the record has fails |
| Statements.KeyTermsValues | poc/bulk_load/bulk_load_server.py:200-209 | there is one term per key attribute the record has, in `key_attributes` order, each built from that key's value; absent keys are skipped |
| Statements.KeyConditionsSucceed | poc/bulk_load/bulk_load_server.py:200-211 | for well-formed (`Canonical`) scalar keys the key conditions exist, and each term starts with `user_<key>=` |
| Statements.KeyConditionsSpec | poc/bulk_load/bulk_load_server.py:200-211 | `_make_key_conditions` fails exactly when a present key's term fails; otherwise it joins one term per present key, in key order, with ` AND `, and a record with no key attribute gets the empty text |
| Statements.IndexConditionsJoin | poc/bulk_load/bulk_load_server.py:214-219 | the index conditions are four comparisons joined by ` AND `: name and text in single quotes, the number as decimal text that reads back through `int()`, the blob literal verbatim |
| Statements.ReadMatchesWrittenSlot | poc/bulk_load/bulk_load_server.py:222-225 | the default index conditions compare each index column with exactly the literal the INSERT writes into it (`''`, `''`, `0`, `0x`), joined by ` AND ` |
| Statements.MakeReadQuery | poc/bulk_load/bulk_load_server.py:228-237 | the SELECT is `SELECT * FROM "user_<tenant>"."<internal_name>" WHERE`, then the key conditions, `AND` and the default index conditions, space-joined; a key-term failure propagates |
| Statements.DeclaredEntriesOk | poc/bulk_load/bulk_load_server.py:251-257 | the first loop fails exactly when a declared attribute the record has has no literal |
| Statements.DeclaredEntriesValues | poc/bulk_load/bulk_load_server.py:251-257 | the first loop yields one entry per declared attribute present in the record, with that attribute's predefined literal |
| Statements.DynamicNames | poc/bulk_load/bulk_load_server.py:249-257 | `attrs_to_insert` ends up holding exactly the record's names that are not declared, each once |
| Statements.DynamicNamesRemove | poc/bulk_load/bulk_load_server.py:257 | removing a visited declared name from `attrs_to_insert` is the same as leaving it out of the remainder |
| Statements.DynamicEntriesOk | poc/bulk_load/bulk_load_server.py:259-273 | the second loop fails exactly when a remaining value cannot be serialised |
| Statements.DynamicEntriesValues | poc/bulk_load/bulk_load_server.py:259-273 | the second loop yields one entry per remaining name the record has: the quoted name, quoted name `:` blob, and quoted name `:` quoted type |
| Statements.CollectDeclared | poc/bulk_load/bulk_load_server.py:246-257 | the first loop's fields, values and `attrs_to_insert` equal the specification's declared entries and remaining names; an encoder failure propagates |
| Statements.CollectDynamic | poc/bulk_load/bulk_load_server.py:259-273 | the three builders equal the existence, data and type items of the specification's dynamic entries; a serialiser failure propagates |
| Statements.AppendSystemColumns | poc/bulk_load/bulk_load_server.py:275-292 | the three system columns with their `{…}` collections always follow, then the four index-slot columns with the sentinel literals exactly when the table is indexed |
| Statements.CollectColumns | poc/bulk_load/bulk_load_server.py:246-292 | the collected fields and values are those of `MainInsertColumns` |
| Statements.InsertText | poc/bulk_load/bulk_load_server.py:294-302 | the INSERT text starts with its head; it ends with ` IF NOT EXISTS` exactly when asked to, and with `)` otherwise |
| Statements.MainInsertText | poc/bulk_load/bulk_load_server.py:240-302 | a built INSERT starts with `INSERT INTO "user_<tenant>"."<internal_name>" (` and ends with ` IF NOT EXISTS` exactly when requested |
| Statements.MakeMainInsertQuery | poc/bulk_load/bulk_load_server.py:240-302 | the step-by-step builder produces exactly `MainInsertText` |
| Statements.DeclaredRouting | poc/bulk_load/bulk_load_server.py:251-257 | the `user_` columns are distinct; `user_<name>` is among them exactly when the name is declared and present, and its value is that attribute's predefined literal |
| Statements.DynamicRouting | poc/bulk_load/bulk_load_server.py:259-273 | the existence items are distinct. A quoted name is among them exactly when the attribute is present and not declared. Its data and type items sit at the same position |
| Statements.FieldsDistinct | poc/bulk_load/bulk_load_server.py:251-292 | no INSERT column is named twice, and no system column carries the `user_` prefix |
| Statements.InsertRouting | poc/bulk_load/bulk_load_server.py:249-281 | each attribute is routed one way. A declared present one gets one `user_` field holding its literal. Any other present one goes into the three collections. None goes to both, and a declared absent one goes nowhere |
| Statements.InsertShape | poc/bulk_load/bulk_load_server.py:275-292 | fields and values have equal length; the `user_` columns come first, then the three system columns, then the four index columns and sentinel literals exactly when indexed |
| Statements.NoDynamicAttributes | poc/bulk_load/bulk_load_server.py:259-281 | a record without undeclared attributes writes `{}` into each of the three collections |
| Statements.InsertSucceeds | poc/bulk_load/bulk_load_server.py:240-302 | an INSERT can always be built for a record whose declared values are well-formed (`Canonical`) and whose undeclared values the serialiser accepts |
| Statements.BatchShape | poc/bulk_load/bulk_load_server.py:309-329 | the batch text starts with `BEGIN BATCH ` and ends with ` IF NOT EXISTS; APPLY BATCH` exactly when indexed; the INSERT head always follows the batch prefix |
| Statements.MakeInsertQuery | poc/bulk_load/bulk_load_server.py:309-329 | an indexed table gets `BEGIN BATCH <conditional insert>; APPLY BATCH`, any other table `<plain insert>;`. Batch markers and ` IF NOT EXISTS` appear exactly when indexed |
| CasResult.IsApplied | poc/bulk_load/bulk_load_server.py:373-379 | an empty result counts as applied; otherwise the write applied exactly when the first row has an `[applied]` column and it is true, and a missing column (the caught exception) counts as not applied |
| CasResult.AfterInsert | poc/bulk_load/bulk_load_server.py:373-419 | the read is re-entered exactly when the result is non-empty and the first row's `[applied]` flag is missing or false |
| CasResult.FirstRowDecides | poc/bulk_load/bulk_load_server.py:373-379 | only the first row of a result decides whether the write applied |
| CasResult.AppliedIsFinal | poc/bulk_load/bulk_load_server.py:373-419 | a write reported as applied is never retried, and one reported as rejected always is |
| CasResult.Rounds | poc/bulk_load/bulk_load_server.py:415-429 | the read-insert chain stops after the first round whose insert applied, retries after every earlier round, and stops by the first applied result |

## Left out

- The WSGI front end and the streaming loop of `put_item_app`, and the `__main__` server start: request framing, prints and a gevent server, which are I/O.
- Provisioning (`init_test_env` and the DDL strings): statements executed on a live Cassandra session.
- `put_item_async`, `_cb_read` and the `execute_async`/`add_callback` chaining with its futures queue: driver callbacks on other threads and `Queue.Queue` capacity. `CasResult.Rounds` states only the retry decision, over a given sequence of insert results. It describes chains whose re-reads come back empty. In the source, a rejected conditional insert re-reads the key and the sentinel slot (lines 423-429). That read finds the conflicting row, so `_cb_read` takes its else branch (lines 399-402), where `_make_insert_delete_query` raises NameError on `data` (line 348). So the source as written never reaches a second insert.
- The branch of `_cb_read` taken for a non-empty read: it calls `_make_insert_delete_query` and `_make_insert_update_query`. Those builders use undefined names and raise NameError, so they are not modelled.
- The stubs `_make_index_update_query`, `_parse_index_values` (always `{}`) and `_are_attrs_changed` (always true), and the uncalled `_encode_single_value_as_dynamic_attr`.
- `base64.decodestring` and `ujson.dumps` are function parameters. Only their success or failure and their results are used.
- Dict iteration orders are enumeration parameters (`declOrder`, `keyOrder`). Field positions in the lemmas are stated relative to them, never as a fixed order.
- The `impl.SYSTEM_COLUMN_*` constants belong to the storage layer, which is not part of this model. They are a `SystemColumns` parameter.
- AttrCodec.FormatText: an `S` literal of a list value would contain the list's repr. The model reports `ReprOutsideModel` instead of rendering it.
- AttrCodec.EncodeSingle: a `B` value that is text rather than bytes is a TypeError here. Python 2's hexlify would accept ASCII text. The decoder never produces such a value.
- AttrCodec.ParseAttrVal: JSON numbers, booleans and objects as raw values are not modelled; raw values are null, text or a list of text. Unicode and its encoding errors are not modelled either.
- AttrCodec.WellFormedEncodes: a decoded value need not be well-formed. Under `S`, `N` and `SS` the decoder passes any raw value through, so `{"N": ["1"]}` decodes to a list of text, which gets no text literal: as a declared column its join raises TypeError, and as a key `KeyTerm` does, as the source does at lines 174, 208 and 296. `{"S": ["a"]}` decodes to a list whose literal would hold its repr (`ReprOutsideModel`). The success lemmas (`WellFormedEncodes`, `KeyConditionsSucceed`, `InsertSucceeds`) therefore speak of well-formed values only.
- AttrCodec.ParseAttrVal: an attribute whose JSON value is not an object makes `json.iteritems()` raise AttributeError (bulk_load_server.py:62). The input type `TaggedJson` is always an object's entry list, so the model cannot express that case.
- AttrCodec.JsonToAttributeMap: when several attributes fail, which exception surfaces depends on dict order, so the model returns `None` without naming it.
- CasResult.IsApplied: rows are maps from column name to boolean. The driver's named-tuple rows, and flags that are truthy but not boolean, are not modelled.
- Statements.MakeMainInsertQuery: the INSERT, and everything built on it (`DeclaredEntries`, `MainInsertColumns`, `MainInsertText`, `MakeInsertQuery`, `InsertSucceeds`), uses the corrected `EncodePredefined`. As written, `_make_main_insert_query` raises TypeError for every record with a declared, non-empty `NS` attribute: line 256 calls the encoder, whose `','.join` at line 158 raises (`AttrCodec.NumberSetsAsWrittenRaise`). On every other decoded value the two encoders agree (`AttrCodec.AsWrittenAgreesOffNumberSets`).
- Statements.KeyTerm: key terms use the corrected single-value encoder. It agrees with the code as written on every decoded value, because a decoded value is never a bare integer (`AttrCodec.DecodedNeverInteger`).

## Findings

| source | as written | input that shows it | evidently intended | confidence | as-written member | corrected member |
|---|---|---|---|---|---|---|
| poc/bulk_load/bulk_load_server.py:74-174 | `parse_attr_val` turns `NS` elements into Python ints, and `_encode_single_value_as_predefined_attr('N', v)` returns `v` unchanged, so `','.join` in `_encode_predefined_attr_value` raises TypeError | a declared `NS` attribute holding `{"NS": ["1"]}` | a number is written as its decimal text, giving `{1}`; every well-formed (`Canonical`) value gets a text literal (`AttrCodec.WellFormedEncodes`) | high, not executed | AttrCodec.NumberSetAsWrittenFails | AttrCodec.EncodeSingle |
