/** The CQL statement builder of the bulk loader: the conflict-check SELECT
    (`_make_key_conditions`, `_make_index_conditions`, `_make_default_index_conditions`,
    `_make_read_query`) and the optimistic INSERT (`_make_main_insert_query`,
    `_make_insert_query`). */
module Statements {
  import opened PyRuntime
  import opened AttrCodec

  const UserPrefix := "user_"

  /** `table_info.schema`: the key attributes in order, the declared attributes with their
      types, and the index definitions (index name to the attribute it indexes). */
  datatype TableSchema = TableSchema(
    keyAttributes: seq<string>,
    attributeTypeMap: map<string, Tag>,
    indexDefMap: map<string, string>)

  datatype TableInfo = TableInfo(schema: TableSchema, internalName: string)

  /** A dict is true in Python exactly when it is non-empty. */
  predicate IsIndexed(info: TableInfo) {
    |info.schema.indexDefMap| > 0
  }

  /** The storage layer's system column names (`impl.SYSTEM_COLUMN_*`). Their text is not
      part of this model; the proofs rely only on `Valid`. */
  datatype SystemColumns = SystemColumns(
    attrExist: string,
    extraAttrData: string,
    extraAttrTypes: string,
    indexName: string,
    indexValueString: string,
    indexValueNumber: string,
    indexValueBlob: string)
  {
    /** The three companion columns of the dynamic attributes. */
    function DynamicColumns(): seq<string> {
      [attrExist, extraAttrData, extraAttrTypes]
    }

    /** The four index-slot columns. */
    function IndexColumns(): seq<string> {
      [indexName, indexValueString, indexValueNumber, indexValueBlob]
    }

    /** Seven distinct names, none of them in the `user_` namespace. */
    predicate Valid() {
      var all := DynamicColumns() + IndexColumns();
      NoDup(all) && forall i :: 0 <= i < |all| ==> !HasPrefix(all[i], UserPrefix)
    }
  }

  // The sentinel index slot every row written here occupies.
  const DefaultIndexName := ""
  const DefaultIndexValueString := ""
  const DefaultIndexValueNumber := 0
  const DefaultIndexValueBlob := "0x"

  // The same sentinels as the CQL literals the insert writes.
  const DefaultIndexNameQuoted := "''"
  const DefaultIndexValueStringQuoted := "''"
  const DefaultIndexValueNumberQuoted := "0"
  const DefaultIndexValueBlobQuoted := "0x"

  /** `"{}".format(name)` inside single quotes: the key of a dynamic attribute. */
  function Quote(name: string): string {
    "'" + name + "'"
  }

  /** The names in `names` the record has, in their order. */
  function Present(names: seq<string>, attrs: AttrMap): (r: seq<string>)
    ensures forall n :: n in r <==> n in names && n in attrs
    ensures NoDup(names) ==> NoDup(r)
  {
    if |names| == 0 then []
    else if names[0] in attrs then [names[0]] + Present(names[1..], attrs)
    else Present(names[1..], attrs)
  }

  // ---- the conflict-check SELECT ----

  /** `USER_PREFIX + key + '=' + <literal>`; concatenating a literal that is not text raises. */
  function KeyTerm(key: string, tv: (Tag, PyValue)): Result<string> {
    match EncodeSingle(TagName(tv.0), tv.1)
    case Err(e) => Err(e)
    case Ok(lit) => if lit.PyStr? then Ok(UserPrefix + key + "=" + lit.s) else Err(TypeError)
  }

  /** The loop of `_make_key_conditions`: one term per key attribute the record has, in
      key order; keys the record lacks are skipped. */
  function KeyTerms(keys: seq<string>, attrs: AttrMap): Result<seq<string>> {
    if |keys| == 0 then Ok([])
    else if keys[0] !in attrs then KeyTerms(keys[1..], attrs)
    else
      match KeyTerm(keys[0], attrs[keys[0]])
      case Err(e) => Err(e)
      case Ok(term) => Then([term], KeyTerms(keys[1..], attrs))
  }

  /** The key terms fail exactly when the term of a key attribute the record has fails. */
  lemma {:induction false} KeyTermsOk(keys: seq<string>, attrs: AttrMap)
    ensures KeyTerms(keys, attrs).Ok? <==> forall k :: k in keys && k in attrs ==> KeyTerm(k, attrs[k]).Ok?
  {
    if |keys| > 0 {
      KeyTermsOk(keys[1..], attrs);
      assert forall k :: k in keys <==> k == keys[0] || k in keys[1..];
    }
  }

  /** When they succeed, the key terms are one term per key attribute the record has, in
      key order, each built from that key's value. */
  lemma {:induction false} KeyTermsValues(keys: seq<string>, attrs: AttrMap)
    requires KeyTerms(keys, attrs).Ok?
    ensures var ts := KeyTerms(keys, attrs).value;
      && |ts| == |Present(keys, attrs)|
      && forall i :: 0 <= i < |ts| ==>
           var k := Present(keys, attrs)[i]; k in attrs && KeyTerm(k, attrs[k]) == Ok(ts[i])
  {
    if |keys| > 0 {
      var p := Present(keys, attrs);
      if keys[0] in attrs {
        var first := KeyTerm(keys[0], attrs[keys[0]]);
        var rest := KeyTerms(keys[1..], attrs);
        assert first.Ok? && rest.Ok?;
        KeyTermsValues(keys[1..], attrs);
        var ts := KeyTerms(keys, attrs).value;
        assert ts == [first.value] + rest.value;
        assert p == [keys[0]] + Present(keys[1..], attrs);
        forall i | 0 <= i < |ts|
          ensures p[i] in attrs && KeyTerm(p[i], attrs[p[i]]) == Ok(ts[i])
        {
          if i > 0 {
            assert ts[i] == rest.value[i - 1] && p[i] == Present(keys[1..], attrs)[i - 1];
          }
        }
      } else {
        KeyTermsValues(keys[1..], attrs);
      }
    }
  }

  /** `_make_key_conditions`: the key terms joined by ` AND `. */
  function KeyConditions(info: TableInfo, attrs: AttrMap): Result<string> {
    match KeyTerms(info.schema.keyAttributes, attrs)
    case Err(e) => Err(e)
    case Ok(terms) => Ok(Join(" AND ", terms))
  }

  /** `_make_key_conditions` fails exactly when the term of a key attribute the record has
      fails; otherwise it is one term per such key, in key order, joined by ` AND `, and a
      record with no key attribute gets no condition at all. */
  lemma KeyConditionsSpec(info: TableInfo, attrs: AttrMap)
    ensures var keys := info.schema.keyAttributes;
      KeyConditions(info, attrs).Ok? <==> forall k :: k in keys && k in attrs ==> KeyTerm(k, attrs[k]).Ok?
    ensures var keys, r := info.schema.keyAttributes, KeyConditions(info, attrs);
      r.Ok? ==>
        var ts := KeyTerms(keys, attrs).value;
        && r.value == Join(" AND ", ts)
        && |ts| == |Present(keys, attrs)|
        && (forall i :: 0 <= i < |ts| ==>
              var k := Present(keys, attrs)[i]; k in attrs && KeyTerm(k, attrs[k]) == Ok(ts[i]))
        && (|Present(keys, attrs)| == 0 ==> r.value == "")
  {
    var keys := info.schema.keyAttributes;
    KeyTermsOk(keys, attrs);
    if KeyTerms(keys, attrs).Ok? {
      KeyTermsValues(keys, attrs);
    }
  }

  /** One `<column> = <literal>` comparison. */
  function Equals(column: string, literal: string): string {
    column + " = " + literal
  }

  /** The key conditions can be built whenever every key attribute the record has is a
      scalar holding a value as the decoder produces it; each term then names its column
      `user_<key>` and carries that key's literal. */
  lemma KeyConditionsSucceed(info: TableInfo, attrs: AttrMap)
    requires forall k :: k in info.schema.keyAttributes && k in attrs ==>
               !IsSetTag(attrs[k].0) && Canonical(attrs[k].0, attrs[k].1)
    ensures KeyConditions(info, attrs).Ok?
    ensures var terms := KeyTerms(info.schema.keyAttributes, attrs).value;
      |terms| == |Present(info.schema.keyAttributes, attrs)| &&
      forall i :: 0 <= i < |terms| ==>
        var k := Present(info.schema.keyAttributes, attrs)[i];
        HasPrefix(terms[i], UserPrefix + k + "=")
  {
    var keys := info.schema.keyAttributes;
    KeyTermsOk(keys, attrs);
    KeyTermsValues(keys, attrs);
    forall k | k in keys && k in attrs
      ensures KeyTerm(k, attrs[k]).Ok?
    {
      var (t, v) := attrs[k];
      assert TagName(t) == "S" || TagName(t) == "N" || TagName(t) == "B";
    }
    var terms := KeyTerms(keys, attrs).value;
    forall i | 0 <= i < |terms|
      ensures HasPrefix(terms[i], UserPrefix + Present(keys, attrs)[i] + "=")
    {
      var k := Present(keys, attrs)[i];
      var lit := EncodeSingle(TagName(attrs[k].0), attrs[k].1).value.s;
      assert terms[i] == UserPrefix + k + "=" + lit;
      assert terms[i][..|UserPrefix + k + "="|] == UserPrefix + k + "=";
    }
  }

  /** `_make_index_conditions`: the four index-slot columns compared with a quoted name, a
      quoted text, a number and a blob literal. */
  function IndexConditions(cols: SystemColumns, indexName: string, text: string, number: int, blob: string)
    : string
  {
    Equals(cols.indexName, "'" + indexName + "'") + " AND "
    + Equals(cols.indexValueString, "'" + text + "'") + " AND "
    + Equals(cols.indexValueNumber, IntText(number)) + " AND "
    + Equals(cols.indexValueBlob, blob)
  }

  /** The index conditions are the four comparisons joined by ` AND `: the name and the text
      quoted, the number as the decimal text int() reads back, the blob literal verbatim. */
  lemma IndexConditionsJoin(cols: SystemColumns, indexName: string, text: string, number: int, blob: string)
    ensures IndexConditions(cols, indexName, text, number, blob)
         == Join(" AND ", [Equals(cols.indexName, Quote(indexName)),
                           Equals(cols.indexValueString, Quote(text)),
                           Equals(cols.indexValueNumber, IntText(number)),
                           Equals(cols.indexValueBlob, blob)])
    // what follows `<column> = ` in the number comparison reads back as the number
    ensures var c := Equals(cols.indexValueNumber, IntText(number));
      ParseInt(c[|cols.indexValueNumber| + 3..]) == Some(number)
  {
    var c := [Equals(cols.indexName, Quote(indexName)),
              Equals(cols.indexValueString, Quote(text)),
              Equals(cols.indexValueNumber, IntText(number)),
              Equals(cols.indexValueBlob, blob)];
    assert c[1..][1..][1..] == [c[3]];
    assert Join(" AND ", c[1..][1..]) == c[2] + " AND " + c[3];
    assert Join(" AND ", c[1..]) == c[1] + " AND " + (c[2] + " AND " + c[3]);
    assert c[2][|cols.indexValueNumber| + 3..] == IntText(number);
    ParseIntText(number);
  }

  /** `_make_default_index_conditions`: the predicate for the sentinel index slot. */
  function DefaultIndexConditions(cols: SystemColumns): string {
    IndexConditions(cols, DefaultIndexName, DefaultIndexValueString, DefaultIndexValueNumber, DefaultIndexValueBlob)
  }

  /** The slot the read looks in is the slot the insert writes: the default index conditions
      compare each index column with exactly the literal the insert stores in it. */
  lemma ReadMatchesWrittenSlot(cols: SystemColumns)
    ensures DefaultIndexConditions(cols)
         == Join(" AND ", [Equals(cols.indexName, DefaultIndexNameQuoted),
                           Equals(cols.indexValueString, DefaultIndexValueStringQuoted),
                           Equals(cols.indexValueNumber, DefaultIndexValueNumberQuoted),
                           Equals(cols.indexValueBlob, DefaultIndexValueBlobQuoted)])
  {
    assert "'" + DefaultIndexName + "'" == DefaultIndexNameQuoted;
    assert "'" + DefaultIndexValueString + "'" == DefaultIndexValueStringQuoted;
    assert IntText(DefaultIndexValueNumber) == DefaultIndexValueNumberQuoted;
    IndexConditionsJoin(cols, DefaultIndexName, DefaultIndexValueString, DefaultIndexValueNumber, DefaultIndexValueBlob);
  }

  function ReadHead(tenant: string, info: TableInfo): string {
    "SELECT * FROM \"" + UserPrefix + tenant + "\".\"" + info.internalName + "\" WHERE"
  }

  /** `_make_read_query`: the SELECT head, the key conditions, `AND` and the sentinel index
      conditions, joined by single spaces. */
  method MakeReadQuery(tenant: string, info: TableInfo, attrs: AttrMap, cols: SystemColumns)
    returns (q: Result<string>)
    ensures KeyConditions(info, attrs).Err? ==> q == Err(KeyConditions(info, attrs).error)
    ensures KeyConditions(info, attrs).Ok? ==>
              q == Ok(ReadHead(tenant, info) + " " + KeyConditions(info, attrs).value
                      + " AND " + DefaultIndexConditions(cols))
  {
    var builder := [ReadHead(tenant, info)];
    var keyConditions := KeyConditions(info, attrs);
    if keyConditions.Err? {
      return Err(keyConditions.error);
    }
    var head, key, index := ReadHead(tenant, info), keyConditions.value, DefaultIndexConditions(cols);
    assert Join(" ", builder) == head;
    JoinSnoc(" ", builder, key);
    builder := builder + [key];
    JoinSnoc(" ", builder, "AND");
    builder := builder + ["AND"];
    JoinSnoc(" ", builder, index);
    builder := builder + [index];
    assert Join(" ", builder) == head + " " + key + " " + "AND" + " " + index;
    assert " " + "AND" + " " == " AND ";
    assert head + " " + key + " " + "AND" + " " + index == head + " " + key + (" " + "AND" + " ") + index;
    q := Ok(Join(" ", builder));
  }

  // ---- the optimistic INSERT ----

  /** A declared attribute's column: the attribute and the literal written to `user_<name>`. */
  datatype Entry = Entry(name: string, literal: PyValue)

  /** A dynamic attribute's items in the existence set, the data map and the types map. */
  datatype DynamicEntry = DynamicEntry(exist: string, data: string, typ: string)

  /** The columns and values of an INSERT, position by position. */
  datatype Columns = Columns(fields: seq<string>, values: seq<PyValue>)

  /** Prepends what a loop has already appended to the outcome of its remaining iterations. */
  function Then<T>(done: seq<T>, rest: Result<seq<T>>): Result<seq<T>> {
    match rest
    case Err(e) => Err(e)
    case Ok(xs) => Ok(done + xs)
  }

  lemma ThenNothing<T>(r: Result<seq<T>>)
    ensures Then([], r) == r
  {
    if r.Ok? {
      assert [] + r.value == r.value;
    }
  }

  /** The first loop of `_make_main_insert_query`, over the declared attributes in the
      schema's iteration order: a column for each one the record has. */
  function DeclaredEntries(order: seq<string>, attrs: AttrMap): Result<seq<Entry>> {
    if |order| == 0 then Ok([])
    else if order[0] !in attrs then DeclaredEntries(order[1..], attrs)
    else
      match EncodePredefined(attrs[order[0]].0, attrs[order[0]].1)
      case Err(e) => Err(e)
      case Ok(lit) => Then([Entry(order[0], lit)], DeclaredEntries(order[1..], attrs))
  }

  /** The first loop fails exactly when a declared attribute the record has has no literal. */
  lemma {:induction false} DeclaredEntriesOk(order: seq<string>, attrs: AttrMap)
    ensures DeclaredEntries(order, attrs).Ok? <==>
              forall n :: n in order && n in attrs ==> EncodePredefined(attrs[n].0, attrs[n].1).Ok?
  {
    if |order| > 0 {
      DeclaredEntriesOk(order[1..], attrs);
      assert forall n :: n in order <==> n == order[0] || n in order[1..];
    }
  }

  /** When it succeeds, the first loop yields a column for every declared attribute the
      record has, in the schema's order, with that attribute's literal. */
  lemma {:induction false} DeclaredEntriesValues(order: seq<string>, attrs: AttrMap)
    requires DeclaredEntries(order, attrs).Ok?
    ensures var es := DeclaredEntries(order, attrs).value;
      && |es| == |Present(order, attrs)|
      && forall i :: 0 <= i < |es| ==>
           && es[i].name == Present(order, attrs)[i]
           && EncodePredefined(attrs[es[i].name].0, attrs[es[i].name].1) == Ok(es[i].literal)
  {
    if |order| > 0 {
      var p := Present(order, attrs);
      if order[0] in attrs {
        var first := EncodePredefined(attrs[order[0]].0, attrs[order[0]].1);
        var rest := DeclaredEntries(order[1..], attrs);
        assert first.Ok? && rest.Ok?;
        DeclaredEntriesValues(order[1..], attrs);
        var es := DeclaredEntries(order, attrs).value;
        assert es == [Entry(order[0], first.value)] + rest.value;
        assert p == [order[0]] + Present(order[1..], attrs);
        forall i | 0 <= i < |es|
          ensures es[i].name == p[i] && EncodePredefined(attrs[es[i].name].0, attrs[es[i].name].1) == Ok(es[i].literal)
        {
          if i > 0 {
            assert es[i] == rest.value[i - 1] && p[i] == Present(order[1..], attrs)[i - 1];
          }
        }
      } else {
        DeclaredEntriesValues(order[1..], attrs);
      }
    }
  }

  /** Both halves together: the first loop fails exactly when a literal cannot be built,
      and otherwise yields one entry per declared attribute the record has. */
  lemma DeclaredEntriesSpec(order: seq<string>, attrs: AttrMap)
    ensures var r := DeclaredEntries(order, attrs);
      && (r.Ok? <==> forall n :: n in order && n in attrs ==> EncodePredefined(attrs[n].0, attrs[n].1).Ok?)
      && (r.Ok? ==> |r.value| == |Present(order, attrs)|)
      && (r.Ok? ==> forall i :: 0 <= i < |r.value| ==>
            && r.value[i].name == Present(order, attrs)[i]
            && EncodePredefined(attrs[r.value[i].name].0, attrs[r.value[i].name].1) == Ok(r.value[i].literal))
  {
    DeclaredEntriesOk(order, attrs);
    if DeclaredEntries(order, attrs).Ok? {
      DeclaredEntriesValues(order, attrs);
    }
  }

  /** What is left of `attr_map.keys()` once the declared names are removed from it. */
  function DynamicNames(keys: seq<string>, declared: seq<string>): (r: seq<string>)
    ensures forall n :: n in r <==> n in keys && n !in declared
    ensures NoDup(keys) ==> NoDup(r)
  {
    if |keys| == 0 then []
    else if keys[0] in declared then DynamicNames(keys[1..], declared)
    else [keys[0]] + DynamicNames(keys[1..], declared)
  }

  /** One pass of the second loop: the items a dynamic attribute adds to the three collections. */
  function DynamicEntryOf(name: string, tv: (Tag, PyValue), dumps: Serializer): Result<DynamicEntry> {
    match EncodeDynamic(tv.0, tv.1, dumps)
    case Err(e) => Err(e)
    case Ok(blob) => Ok(DynamicEntry(Quote(name), Quote(name) + ":" + blob, Quote(name) + ":" + QuotedCassandraType(tv.0)))
  }

  /** The second loop of `_make_main_insert_query`, over the remaining names. */
  function DynamicEntries(names: seq<string>, attrs: AttrMap, dumps: Serializer): Result<seq<DynamicEntry>> {
    if |names| == 0 then Ok([])
    else if names[0] !in attrs then DynamicEntries(names[1..], attrs, dumps)
    else
      match DynamicEntryOf(names[0], attrs[names[0]], dumps)
      case Err(e) => Err(e)
      case Ok(d) => Then([d], DynamicEntries(names[1..], attrs, dumps))
  }

  /** The second loop fails exactly when a remaining value cannot be serialised. */
  lemma {:induction false} DynamicEntriesOk(names: seq<string>, attrs: AttrMap, dumps: Serializer)
    ensures DynamicEntries(names, attrs, dumps).Ok? <==>
              forall n :: n in names && n in attrs ==> EncodeDynamic(attrs[n].0, attrs[n].1, dumps).Ok?
  {
    if |names| > 0 {
      DynamicEntriesOk(names[1..], attrs, dumps);
      assert forall n :: n in names <==> n == names[0] || n in names[1..];
      if names[0] in attrs {
        var tv := attrs[names[0]];
        assert DynamicEntryOf(names[0], tv, dumps).Ok? <==> EncodeDynamic(tv.0, tv.1, dumps).Ok?;
      }
    }
  }

  /** When it succeeds, the second loop yields one entry per remaining name the record has,
      in order. */
  lemma {:induction false} DynamicEntriesValues(names: seq<string>, attrs: AttrMap, dumps: Serializer)
    requires DynamicEntries(names, attrs, dumps).Ok?
    ensures var ds := DynamicEntries(names, attrs, dumps).value;
      && |ds| == |Present(names, attrs)|
      && forall i :: 0 <= i < |ds| ==>
           var n := Present(names, attrs)[i]; DynamicEntryOf(n, attrs[n], dumps) == Ok(ds[i])
  {
    if |names| > 0 {
      var p := Present(names, attrs);
      if names[0] in attrs {
        var first := DynamicEntryOf(names[0], attrs[names[0]], dumps);
        var rest := DynamicEntries(names[1..], attrs, dumps);
        assert first.Ok? && rest.Ok?;
        DynamicEntriesValues(names[1..], attrs, dumps);
        var ds := DynamicEntries(names, attrs, dumps).value;
        assert ds == [first.value] + rest.value;
        assert p == [names[0]] + Present(names[1..], attrs);
        forall i | 0 <= i < |ds|
          ensures DynamicEntryOf(p[i], attrs[p[i]], dumps) == Ok(ds[i])
        {
          if i > 0 {
            assert ds[i] == rest.value[i - 1] && p[i] == Present(names[1..], attrs)[i - 1];
          }
        }
      } else {
        DynamicEntriesValues(names[1..], attrs, dumps);
      }
    }
  }

  /** Both halves together: the second loop fails exactly when a value cannot be
      serialised, and otherwise yields one entry per remaining name the record has. */
  lemma DynamicEntriesSpec(names: seq<string>, attrs: AttrMap, dumps: Serializer)
    ensures var r := DynamicEntries(names, attrs, dumps);
      && (r.Ok? <==> forall n :: n in names && n in attrs ==> EncodeDynamic(attrs[n].0, attrs[n].1, dumps).Ok?)
      && (r.Ok? ==> |r.value| == |Present(names, attrs)|)
      && (r.Ok? ==> forall i :: 0 <= i < |r.value| ==>
            var n := Present(names, attrs)[i]; DynamicEntryOf(n, attrs[n], dumps) == Ok(r.value[i]))
  {
    DynamicEntriesOk(names, attrs, dumps);
    if DynamicEntries(names, attrs, dumps).Ok? {
      DynamicEntriesValues(names, attrs, dumps);
    }
  }

  function UserColumns(es: seq<Entry>): seq<string> {
    seq(|es|, i requires 0 <= i < |es| => UserPrefix + es[i].name)
  }

  function Literals(es: seq<Entry>): seq<PyValue> {
    seq(|es|, i requires 0 <= i < |es| => es[i].literal)
  }

  function ExistItems(ds: seq<DynamicEntry>): seq<string> {
    seq(|ds|, i requires 0 <= i < |ds| => ds[i].exist)
  }

  function DataItems(ds: seq<DynamicEntry>): seq<string> {
    seq(|ds|, i requires 0 <= i < |ds| => ds[i].data)
  }

  function TypeItems(ds: seq<DynamicEntry>): seq<string> {
    seq(|ds|, i requires 0 <= i < |ds| => ds[i].typ)
  }

  /** `'{' + ','.join(items) + '}'`: a CQL set or map literal. */
  function Collection(items: seq<string>): PyValue {
    PyStr("{" + Join(",", items) + "}")
  }

  function IndexSlotValues(): seq<PyValue> {
    [PyStr(DefaultIndexNameQuoted), PyStr(DefaultIndexValueStringQuoted),
     PyStr(DefaultIndexValueNumberQuoted), PyStr(DefaultIndexValueBlobQuoted)]
  }

  /** The columns and values `_make_main_insert_query` collects: the declared attributes the
      record has, the three dynamic collections, and the sentinel index slot when the table
      has an index. */
  function MainInsertColumns(info: TableInfo, attrs: AttrMap, declOrder: seq<string>, keyOrder: seq<string>,
                             dumps: Serializer, cols: SystemColumns): Result<Columns>
  {
    match DeclaredEntries(declOrder, attrs)
    case Err(e) => Err(e)
    case Ok(decl) =>
      match DynamicEntries(DynamicNames(keyOrder, declOrder), attrs, dumps)
      case Err(e) => Err(e)
      case Ok(dyn) =>
        var collections := [Collection(ExistItems(dyn)), Collection(DataItems(dyn)), Collection(TypeItems(dyn))];
        Ok(Columns(
             UserColumns(decl) + cols.DynamicColumns() + (if IsIndexed(info) then cols.IndexColumns() else []),
             Literals(decl) + collections + (if IsIndexed(info) then IndexSlotValues() else [])))
  }

  function InsertHead(tenant: string, info: TableInfo): string {
    "INSERT INTO \"" + UserPrefix + tenant + "\".\"" + info.internalName + "\" ("
  }

  /** The INSERT text around the joined columns and values. */
  function InsertText(head: string, fields: seq<string>, vals: string, ifNotExists: bool): (text: string)
    ensures HasPrefix(text, head)
    ensures ifNotExists <==> HasSuffix(text, " IF NOT EXISTS")
    ensures !ifNotExists ==> HasSuffix(text, ")")
  {
    var text := head + Join(", ", fields) + ") VALUES (" + vals + ")";
    assert HasPrefix(text, head);
    assert text[|text| - 1] == ')';
    if ifNotExists then
      assert (text + " IF NOT EXISTS")[|text|..] == " IF NOT EXISTS";
      assert (text + " IF NOT EXISTS")[..|head|] == head;
      text + " IF NOT EXISTS"
    else
      assert !HasSuffix(text, " IF NOT EXISTS");
      text
  }

  /** `_make_main_insert_query`: fails when a literal cannot be built or is not text. */
  function MainInsertText(tenant: string, info: TableInfo, attrs: AttrMap, declOrder: seq<string>,
                          keyOrder: seq<string>, ifNotExists: bool, dumps: Serializer, cols: SystemColumns)
    : (r: Result<string>)
    ensures r.Ok? ==> HasPrefix(r.value, InsertHead(tenant, info))
    ensures r.Ok? ==> (ifNotExists <==> HasSuffix(r.value, " IF NOT EXISTS"))
    ensures r.Ok? && !ifNotExists ==> HasSuffix(r.value, ")")
  {
    match MainInsertColumns(info, attrs, declOrder, keyOrder, dumps, cols)
    case Err(e) => Err(e)
    case Ok(c) =>
      match JoinValues(", ", c.values)
      case Err(e) => Err(e)
      case Ok(vals) => Ok(InsertText(InsertHead(tenant, info), c.fields, vals, ifNotExists))
  }

  lemma {:induction false} DynamicNamesNone(keys: seq<string>)
    ensures DynamicNames(keys, []) == keys
  {
    if |keys| > 0 {
      DynamicNamesNone(keys[1..]);
    }
  }

  lemma {:induction false} DynamicNamesAbsent(keys: seq<string>, declared: seq<string>, x: string)
    requires x !in keys
    ensures DynamicNames(keys, declared + [x]) == DynamicNames(keys, declared)
  {
    if |keys| > 0 {
      DynamicNamesAbsent(keys[1..], declared, x);
    }
  }

  /** `attrs_to_insert.remove(name)` keeps `attrs_to_insert` equal to the record's names
      minus the declared names seen so far. */
  lemma {:induction false} DynamicNamesRemove(keys: seq<string>, declared: seq<string>, x: string)
    requires NoDup(keys) && x in keys && x !in declared
    ensures x in DynamicNames(keys, declared)
    ensures RemoveFirst(DynamicNames(keys, declared), x) == DynamicNames(keys, declared + [x])
  {
    if keys[0] == x {
      assert x !in keys[1..];
      DynamicNamesAbsent(keys[1..], declared, x);
    } else {
      DynamicNamesRemove(keys[1..], declared, x);
    }
  }

  lemma AssembledColumns(info: TableInfo, attrs: AttrMap, declOrder: seq<string>, keyOrder: seq<string>,
                         dumps: Serializer, cols: SystemColumns, decl: seq<Entry>, dyn: seq<DynamicEntry>)
    requires DeclaredEntries(declOrder, attrs) == Ok(decl)
    requires DynamicEntries(DynamicNames(keyOrder, declOrder), attrs, dumps) == Ok(dyn)
    ensures MainInsertColumns(info, attrs, declOrder, keyOrder, dumps, cols)
         == Ok(Columns(
                 UserColumns(decl) + cols.DynamicColumns() + (if IsIndexed(info) then cols.IndexColumns() else []),
                 Literals(decl) + [Collection(ExistItems(dyn)), Collection(DataItems(dyn)), Collection(TypeItems(dyn))]
                 + (if IsIndexed(info) then IndexSlotValues() else [])))
  {
  }

  /** One iteration of the first loop keeps `attrs_to_insert` equal to the record's names
      minus the declared names visited so far. */
  lemma RemainingStep(keyOrder: seq<string>, declOrder: seq<string>, i: nat, attrs: AttrMap)
    requires NoDup(declOrder) && IsEnumeration(keyOrder, attrs.Keys) && i < |declOrder|
    ensures declOrder[i] in attrs ==>
              var remaining := DynamicNames(keyOrder, declOrder[..i]);
              declOrder[i] in remaining
              && RemoveFirst(remaining, declOrder[i]) == DynamicNames(keyOrder, declOrder[..i + 1])
    ensures declOrder[i] !in attrs ==>
              DynamicNames(keyOrder, declOrder[..i + 1]) == DynamicNames(keyOrder, declOrder[..i])
  {
    var name := declOrder[i];
    assert declOrder[..i + 1] == declOrder[..i] + [name];
    if name in attrs {
      assert name !in declOrder[..i] by {
        assert forall j :: 0 <= j < i ==> declOrder[j] != declOrder[i];
      }
      DynamicNamesRemove(keyOrder, declOrder[..i], name);
    } else {
      DynamicNamesAbsent(keyOrder, declOrder[..i], name);
    }
  }

  /** One iteration of the first loop, as `DeclaredEntries` sees it. */
  lemma DeclaredStep(order: seq<string>, i: nat, attrs: AttrMap, done: seq<Entry>)
    requires i < |order|
    ensures order[i] !in attrs ==>
              Then(done, DeclaredEntries(order[i..], attrs)) == Then(done, DeclaredEntries(order[i + 1..], attrs))
    ensures order[i] in attrs ==>
              var (t, v) := attrs[order[i]];
              Then(done, DeclaredEntries(order[i..], attrs))
              == match EncodePredefined(t, v)
                 case Err(e) => Err(e)
                 case Ok(lit) => Then(done + [Entry(order[i], lit)], DeclaredEntries(order[i + 1..], attrs))
  {
    assert order[i..][0] == order[i] && order[i..][1..] == order[i + 1..];
    var rest := DeclaredEntries(order[i + 1..], attrs);
    if rest.Ok? {
      assert forall e :: done + ([e] + rest.value) == done + [e] + rest.value;
    }
  }

  /** One iteration of the second loop, as `DynamicEntries` sees it. */
  lemma DynamicStep(names: seq<string>, j: nat, attrs: AttrMap, dumps: Serializer, done: seq<DynamicEntry>)
    requires j < |names|
    ensures names[j] !in attrs ==>
              Then(done, DynamicEntries(names[j..], attrs, dumps)) == Then(done, DynamicEntries(names[j + 1..], attrs, dumps))
    ensures names[j] in attrs ==>
              Then(done, DynamicEntries(names[j..], attrs, dumps))
              == match DynamicEntryOf(names[j], attrs[names[j]], dumps)
                 case Err(e) => Err(e)
                 case Ok(d) => Then(done + [d], DynamicEntries(names[j + 1..], attrs, dumps))
  {
    assert names[j..][0] == names[j] && names[j..][1..] == names[j + 1..];
    var rest := DynamicEntries(names[j + 1..], attrs, dumps);
    if rest.Ok? {
      assert forall d :: done + ([d] + rest.value) == done + [d] + rest.value;
    }
  }

  lemma EntryAppended(done: seq<Entry>, e: Entry)
    ensures UserColumns(done + [e]) == UserColumns(done) + [UserPrefix + e.name]
    ensures Literals(done + [e]) == Literals(done) + [e.literal]
  {
  }

  /** The first loop of `_make_main_insert_query`: a `user_<name>` column and its literal
      for each declared attribute the record has, and `attrs_to_insert`, the record's names
      with those removed. */
  method CollectDeclared(attrs: AttrMap, declOrder: seq<string>, keyOrder: seq<string>)
    returns (r: Result<Columns>, attrsToInsert: seq<string>)
    requires NoDup(declOrder)
    requires IsEnumeration(keyOrder, attrs.Keys)
    ensures DeclaredEntries(declOrder, attrs).Err? ==> r == Err(DeclaredEntries(declOrder, attrs).error)
    ensures DeclaredEntries(declOrder, attrs).Ok? ==>
              var decl := DeclaredEntries(declOrder, attrs).value;
              && r == Ok(Columns(UserColumns(decl), Literals(decl)))
              && attrsToInsert == DynamicNames(keyOrder, declOrder)
  {
    var fields: seq<string> := [];
    var values: seq<PyValue> := [];
    attrsToInsert := keyOrder;
    ghost var declared: seq<Entry> := [];
    DynamicNamesNone(keyOrder);
    assert declOrder[0..] == declOrder && declOrder[..0] == [];
    ThenNothing(DeclaredEntries(declOrder, attrs));

    for i := 0 to |declOrder|
      invariant DeclaredEntries(declOrder, attrs) == Then(declared, DeclaredEntries(declOrder[i..], attrs))
      invariant fields == UserColumns(declared) && values == Literals(declared)
      invariant attrsToInsert == DynamicNames(keyOrder, declOrder[..i])
    {
      var name := declOrder[i];
      DeclaredStep(declOrder, i, attrs, declared);
      RemainingStep(keyOrder, declOrder, i, attrs);
      if name in attrs {
        fields := fields + [UserPrefix + name];
        var (t, v) := attrs[name];
        var lit := EncodePredefined(t, v);
        if lit.Err? {
          return Err(lit.error), attrsToInsert;
        }
        values := values + [lit.value];
        attrsToInsert := RemoveFirst(attrsToInsert, name);
        EntryAppended(declared, Entry(name, lit.value));
        declared := declared + [Entry(name, lit.value)];
      }
    }
    assert declOrder[|declOrder|..] == [];
    assert declOrder[..|declOrder|] == declOrder;
    assert declared + [] == declared;
    r := Ok(Columns(fields, values));
  }

  lemma DynamicAppended(done: seq<DynamicEntry>, d: DynamicEntry)
    ensures ExistItems(done + [d]) == ExistItems(done) + [d.exist]
    ensures DataItems(done + [d]) == DataItems(done) + [d.data]
    ensures TypeItems(done + [d]) == TypeItems(done) + [d.typ]
  {
  }

  /** The second loop of `_make_main_insert_query`: the items of the existence set, the
      data map and the types map, one of each per remaining name the record has. */
  method CollectDynamic(names: seq<string>, attrs: AttrMap, dumps: Serializer)
    returns (r: Result<seq<seq<string>>>)
    ensures DynamicEntries(names, attrs, dumps).Err? ==> r == Err(DynamicEntries(names, attrs, dumps).error)
    ensures DynamicEntries(names, attrs, dumps).Ok? ==>
              var dyn := DynamicEntries(names, attrs, dumps).value;
              r == Ok([ExistItems(dyn), DataItems(dyn), TypeItems(dyn)])
  {
    var extraExist: seq<string> := [];
    var extraData: seq<string> := [];
    var extraTypes: seq<string> := [];
    ghost var dynamic: seq<DynamicEntry> := [];
    assert names[0..] == names;
    ThenNothing(DynamicEntries(names, attrs, dumps));

    for j := 0 to |names|
      invariant DynamicEntries(names, attrs, dumps) == Then(dynamic, DynamicEntries(names[j..], attrs, dumps))
      invariant extraExist == ExistItems(dynamic) && extraData == DataItems(dynamic) && extraTypes == TypeItems(dynamic)
    {
      var name := names[j];
      DynamicStep(names, j, attrs, dumps, dynamic);
      if name in attrs {
        var (t, v) := attrs[name];
        var quoted := "'" + name + "'";
        extraExist := extraExist + [quoted];
        var blob := EncodeDynamic(t, v, dumps);
        if blob.Err? {
          return Err(blob.error);
        }
        extraData := extraData + [quoted + ":" + blob.value];
        extraTypes := extraTypes + [quoted + ":" + QuotedCassandraType(t)];
        ghost var d := DynamicEntry(quoted, quoted + ":" + blob.value, quoted + ":" + QuotedCassandraType(t));
        DynamicAppended(dynamic, d);
        dynamic := dynamic + [d];
      }
    }
    assert names[|names|..] == [];
    assert dynamic + [] == dynamic;
    r := Ok([extraExist, extraData, extraTypes]);
  }

  /** The tail of `_make_main_insert_query`'s column list: the three dynamic collections,
      then the sentinel index slot when the table has an index. */
  method AppendSystemColumns(fields: seq<string>, values: seq<PyValue>,
                             extraExist: seq<string>, extraData: seq<string>, extraTypes: seq<string>,
                             indexed: bool, cols: SystemColumns)
    returns (fields': seq<string>, values': seq<PyValue>)
    ensures fields' == fields + cols.DynamicColumns() + (if indexed then cols.IndexColumns() else [])
    ensures values' == values + [Collection(extraExist), Collection(extraData), Collection(extraTypes)]
                       + (if indexed then IndexSlotValues() else [])
  {
    fields' := fields + [cols.attrExist];
    fields' := fields' + [cols.extraAttrData];
    fields' := fields' + [cols.extraAttrTypes];
    values' := values + [PyStr("{" + Join(",", extraExist) + "}")];
    values' := values' + [PyStr("{" + Join(",", extraData) + "}")];
    values' := values' + [PyStr("{" + Join(",", extraTypes) + "}")];
    assert fields' == fields + cols.DynamicColumns();
    assert values' == values + [Collection(extraExist), Collection(extraData), Collection(extraTypes)];

    if indexed {
      ghost var f, v := fields', values';
      fields' := fields' + [cols.indexName];
      fields' := fields' + [cols.indexValueString];
      fields' := fields' + [cols.indexValueNumber];
      fields' := fields' + [cols.indexValueBlob];
      values' := values' + [PyStr(DefaultIndexNameQuoted)];
      values' := values' + [PyStr(DefaultIndexValueStringQuoted)];
      values' := values' + [PyStr(DefaultIndexValueNumberQuoted)];
      values' := values' + [PyStr(DefaultIndexValueBlobQuoted)];
      assert fields' == f + cols.IndexColumns() && values' == v + IndexSlotValues();
    } else {
      assert fields' == fields' + [] && values' == values' + [];
    }
  }

  /** The columns and values `_make_main_insert_query` collects: the two loops, then the
      three dynamic collections, then the index slot when the table has an index. */
  method CollectColumns(info: TableInfo, attrs: AttrMap, declOrder: seq<string>, keyOrder: seq<string>,
                        dumps: Serializer, cols: SystemColumns)
    returns (r: Result<Columns>)
    requires IsEnumeration(declOrder, info.schema.attributeTypeMap.Keys)
    requires IsEnumeration(keyOrder, attrs.Keys)
    ensures r == MainInsertColumns(info, attrs, declOrder, keyOrder, dumps, cols)
  {
    var declared, attrsToInsert := CollectDeclared(attrs, declOrder, keyOrder);
    if declared.Err? {
      return Err(declared.error);
    }
    var fields, values := declared.value.fields, declared.value.values;

    var extra := CollectDynamic(attrsToInsert, attrs, dumps);
    if extra.Err? {
      return Err(extra.error);
    }
    var extraExist, extraData, extraTypes := extra.value[0], extra.value[1], extra.value[2];
    fields, values := AppendSystemColumns(fields, values, extraExist, extraData, extraTypes, IsIndexed(info), cols);
    AssembledColumns(info, attrs, declOrder, keyOrder, dumps, cols,
                     DeclaredEntries(declOrder, attrs).value, DynamicEntries(attrsToInsert, attrs, dumps).value);
    r := Ok(Columns(fields, values));
  }

  /** `_make_main_insert_query`: the INSERT head, the column list, the values, and
      ` IF NOT EXISTS` when asked for. */
  method MakeMainInsertQuery(tenant: string, info: TableInfo, attrs: AttrMap, declOrder: seq<string>,
                             keyOrder: seq<string>, ifNotExists: bool, dumps: Serializer, cols: SystemColumns)
    returns (q: Result<string>)
    requires IsEnumeration(declOrder, info.schema.attributeTypeMap.Keys)
    requires IsEnumeration(keyOrder, attrs.Keys)
    ensures q == MainInsertText(tenant, info, attrs, declOrder, keyOrder, ifNotExists, dumps, cols)
  {
    var builder := [InsertHead(tenant, info)];
    var collected := CollectColumns(info, attrs, declOrder, keyOrder, dumps, cols);
    if collected.Err? {
      return Err(collected.error);
    }
    var fields, values := collected.value.fields, collected.value.values;

    assert Join("", builder) == InsertHead(tenant, info);
    ConcatSnoc(builder, Join(", ", fields));
    builder := builder + [Join(", ", fields)];
    ghost var text := InsertHead(tenant, info) + Join(", ", fields);
    ConcatSnoc(builder, ") VALUES (");
    builder := builder + [") VALUES ("];
    text := text + ") VALUES (";
    var joined := JoinValues(", ", values);
    if joined.Err? {
      return Err(joined.error);
    }
    ConcatSnoc(builder, joined.value);
    builder := builder + [joined.value];
    text := text + joined.value;
    ConcatSnoc(builder, ")");
    builder := builder + [")"];
    text := text + ")";
    assert Join("", builder) == text;

    if ifNotExists {
      ConcatSnoc(builder, " IF NOT EXISTS");
      builder := builder + [" IF NOT EXISTS"];
    }
    q := Ok(Join("", builder));
  }

  /** A conditional insert wrapped in a batch: the batch markers at both ends, the insert
      head and its ` IF NOT EXISTS` between them. */
  lemma BatchedShape(head: string, main: string)
    requires HasPrefix(main, head) && HasSuffix(main, " IF NOT EXISTS")
    ensures var text := "BEGIN BATCH" + " " + (main + ";" + " " + "APPLY BATCH");
      && text == "BEGIN BATCH " + main + "; APPLY BATCH"
      && HasPrefix(text, "BEGIN BATCH " + head)
      && HasSuffix(text, " IF NOT EXISTS; APPLY BATCH")
  {
    assert "BEGIN BATCH" + " " + (main + ";" + " " + "APPLY BATCH") == "BEGIN BATCH " + main + "; APPLY BATCH";
    BatchedPrefix(head, main);
    BatchedSuffix(main);
  }

  lemma BatchedPrefix(head: string, main: string)
    requires HasPrefix(main, head)
    ensures HasPrefix("BEGIN BATCH " + main + "; APPLY BATCH", "BEGIN BATCH " + head)
  {
    var text := "BEGIN BATCH " + main + "; APPLY BATCH";
    assert text[..|"BEGIN BATCH " + head|] == "BEGIN BATCH " + head;
  }

  lemma BatchedSuffix(main: string)
    requires HasSuffix(main, " IF NOT EXISTS")
    ensures HasSuffix("BEGIN BATCH " + main + "; APPLY BATCH", " IF NOT EXISTS; APPLY BATCH")
  {
    var text := "BEGIN BATCH " + main + "; APPLY BATCH";
    var suffix := " IF NOT EXISTS; APPLY BATCH";
    assert main[|main| - 14..] == " IF NOT EXISTS";
    assert text[|text| - |suffix|..] == suffix;
  }

  /** A plain insert terminated by `;`: it starts with the insert head, so not with a batch
      marker, and ends with `);`, so not with the batch's end. */
  lemma PlainShape(head: string, main: string)
    requires HasPrefix(main, head) && |head| > 0 && head[0] == 'I'
    requires HasSuffix(main, ")")
    ensures var text := main + ";";
      && HasPrefix(text, head)
      && !HasPrefix(text, "BEGIN BATCH ")
      && !HasSuffix(text, " IF NOT EXISTS; APPLY BATCH")
  {
    var text := main + ";";
    assert main[|main| - 1] == ')';
    assert text[|text| - 2] == ')';
    assert text[..|head|] == head;
    assert text[0] == 'I';
  }

  lemma BatchShape(head: string, main: string, indexed: bool)
    requires HasPrefix(main, head) && |head| > 0 && head[0] == 'I'
    requires indexed <==> HasSuffix(main, " IF NOT EXISTS")
    requires !indexed ==> HasSuffix(main, ")")
    ensures var text := if indexed then "BEGIN BATCH" + " " + (main + ";" + " " + "APPLY BATCH") else main + ";";
      && (indexed <==> HasPrefix(text, "BEGIN BATCH "))
      && (indexed <==> HasSuffix(text, " IF NOT EXISTS; APPLY BATCH"))
      && HasPrefix(text, (if indexed then "BEGIN BATCH " else "") + head)
      && (indexed ==> text == "BEGIN BATCH " + main + "; APPLY BATCH")
  {
    if indexed {
      BatchedShape(head, main);
      var text := "BEGIN BATCH " + main + "; APPLY BATCH";
      assert text[..|"BEGIN BATCH "|] == "BEGIN BATCH ";
    } else {
      PlainShape(head, main);
      assert "" + head == head;
    }
  }

  /** `_make_insert_query`: with an index, the conditional insert inside a batch; without
      one, the plain insert. Either way the insert ends with `;`. */
  method MakeInsertQuery(tenant: string, info: TableInfo, attrs: AttrMap, declOrder: seq<string>,
                         keyOrder: seq<string>, dumps: Serializer, cols: SystemColumns)
    returns (q: Result<string>)
    requires IsEnumeration(declOrder, info.schema.attributeTypeMap.Keys)
    requires IsEnumeration(keyOrder, attrs.Keys)
    ensures var main := MainInsertText(tenant, info, attrs, declOrder, keyOrder, IsIndexed(info), dumps, cols);
      && (main.Err? ==> q == Err(main.error))
      && (main.Ok? && IsIndexed(info) ==> q == Ok("BEGIN BATCH " + main.value + "; APPLY BATCH"))
      && (main.Ok? && !IsIndexed(info) ==> q == Ok(main.value + ";"))
    ensures q.Ok? ==> (IsIndexed(info) <==> HasPrefix(q.value, "BEGIN BATCH "))
    ensures q.Ok? ==> (IsIndexed(info) <==> HasSuffix(q.value, " IF NOT EXISTS; APPLY BATCH"))
    ensures q.Ok? ==> HasPrefix(q.value, (if IsIndexed(info) then "BEGIN BATCH " else "") + InsertHead(tenant, info))
  {
    var builder: seq<string> := [];
    var indexed := IsIndexed(info);
    if indexed {
      builder := builder + ["BEGIN BATCH"];
    }
    var main := MakeMainInsertQuery(tenant, info, attrs, declOrder, keyOrder, indexed, dumps, cols);
    if main.Err? {
      return Err(main.error);
    }
    builder := builder + [main.value + ";"];
    if indexed {
      builder := builder + ["APPLY BATCH"];
    }
    if indexed {
      assert builder == ["BEGIN BATCH", main.value + ";", "APPLY BATCH"];
      assert builder[1..][1..] == ["APPLY BATCH"];
      assert Join(" ", builder[1..]) == main.value + ";" + " " + "APPLY BATCH";
    }
    BatchShape(InsertHead(tenant, info), main.value, indexed);
    q := Ok(Join(" ", builder));
  }

  // ---- routing: which attribute lands where ----

  lemma PrefixInjective(p: string, a: string, b: string)
    ensures p + a == p + b ==> a == b
  {
    if p + a == p + b {
      assert a == (p + a)[|p|..];
    }
  }

  lemma QuoteInjective(a: string, b: string)
    ensures Quote(a) == Quote(b) ==> a == b
  {
    if Quote(a) == Quote(b) {
      assert a == Quote(a)[1..|Quote(a)| - 1];
    }
  }

  /** What `DeclaredEntriesValues` says about one position. */
  lemma DeclaredEntryAt(order: seq<string>, attrs: AttrMap, decl: seq<Entry>, i: int)
    requires DeclaredEntries(order, attrs) == Ok(decl)
    requires 0 <= i < |decl|
    ensures |decl| == |Present(order, attrs)|
    ensures var n := Present(order, attrs)[i];
      && n in order && n in attrs
      && decl[i].name == n
      && EncodePredefined(attrs[n].0, attrs[n].1) == Ok(decl[i].literal)
  {
    DeclaredEntriesValues(order, attrs);
  }

  /** The first loop's side of the routing: one `user_<name>` column per declared attribute
      the record has, carrying that attribute's literal; no column is listed twice. */
  lemma DeclaredRouting(info: TableInfo, attrs: AttrMap, declOrder: seq<string>, decl: seq<Entry>, name: string)
    requires IsEnumeration(declOrder, info.schema.attributeTypeMap.Keys)
    requires DeclaredEntries(declOrder, attrs) == Ok(decl)
    ensures NoDup(UserColumns(decl))
    ensures UserPrefix + name in UserColumns(decl) <==> name in info.schema.attributeTypeMap && name in attrs
    ensures forall i :: 0 <= i < |decl| && UserColumns(decl)[i] == UserPrefix + name ==>
              name in attrs && EncodePredefined(attrs[name].0, attrs[name].1) == Ok(Literals(decl)[i])
  {
    var present := Present(declOrder, attrs);
    var cols := UserColumns(decl);
    assert |decl| == |present| by {
      DeclaredEntriesValues(declOrder, attrs);
    }
    forall i | 0 <= i < |decl|
      ensures cols[i] == UserPrefix + present[i]
      ensures cols[i] == UserPrefix + name <==> present[i] == name
      ensures present[i] == name ==>
                name in attrs && EncodePredefined(attrs[name].0, attrs[name].1) == Ok(Literals(decl)[i])
    {
      DeclaredEntryAt(declOrder, attrs, decl, i);
      PrefixInjective(UserPrefix, present[i], name);
    }
    forall i, j | 0 <= i < j < |cols|
      ensures cols[i] != cols[j]
    {
      PrefixInjective(UserPrefix, present[i], present[j]);
    }
    if name in info.schema.attributeTypeMap && name in attrs {
      var i :| 0 <= i < |present| && present[i] == name;
      assert cols[i] == UserPrefix + name;
    }
  }

  /** What `DynamicEntriesSpec` says about one position. */
  lemma DynamicEntryAt(names: seq<string>, attrs: AttrMap, dumps: Serializer, dyn: seq<DynamicEntry>, j: int)
    requires DynamicEntries(names, attrs, dumps) == Ok(dyn)
    requires 0 <= j < |dyn|
    ensures |dyn| == |Present(names, attrs)|
    ensures var n := Present(names, attrs)[j];
      && n in names && n in attrs
      && EncodeDynamic(attrs[n].0, attrs[n].1, dumps).Ok?
      && dyn[j] == DynamicEntry(Quote(n), Quote(n) + ":" + EncodeDynamic(attrs[n].0, attrs[n].1, dumps).value,
                                Quote(n) + ":" + QuotedCassandraType(attrs[n].0))
  {
    DynamicEntriesSpec(names, attrs, dumps);
  }

  /** The second loop's side of the routing: every attribute of the record that is not
      declared has, under the same quoted name and at the same position, one item in the
      existence set, one in the data map and one in the types map; nothing else is there. */
  lemma DynamicRouting(info: TableInfo, attrs: AttrMap, declOrder: seq<string>, keyOrder: seq<string>,
                       dumps: Serializer, dyn: seq<DynamicEntry>, name: string)
    requires IsEnumeration(declOrder, info.schema.attributeTypeMap.Keys)
    requires IsEnumeration(keyOrder, attrs.Keys)
    requires DynamicEntries(DynamicNames(keyOrder, declOrder), attrs, dumps) == Ok(dyn)
    ensures NoDup(ExistItems(dyn))
    ensures Quote(name) in ExistItems(dyn) <==> name in attrs && name !in info.schema.attributeTypeMap
    ensures forall j :: 0 <= j < |dyn| && ExistItems(dyn)[j] == Quote(name) ==>
              && name in attrs
              && EncodeDynamic(attrs[name].0, attrs[name].1, dumps).Ok?
              && DataItems(dyn)[j] == Quote(name) + ":" + EncodeDynamic(attrs[name].0, attrs[name].1, dumps).value
              && TypeItems(dyn)[j] == Quote(name) + ":" + QuotedCassandraType(attrs[name].0)
  {
    var names := DynamicNames(keyOrder, declOrder);
    var present := Present(names, attrs);
    var exist := ExistItems(dyn);
    assert |dyn| == |present| by {
      DynamicEntriesValues(names, attrs, dumps);
    }
    forall j | 0 <= j < |dyn|
      ensures exist[j] == Quote(present[j])
      ensures exist[j] == Quote(name) <==> present[j] == name
      ensures present[j] == name ==> name in attrs && name !in info.schema.attributeTypeMap
      ensures present[j] == name ==>
                && EncodeDynamic(attrs[name].0, attrs[name].1, dumps).Ok?
                && DataItems(dyn)[j] == Quote(name) + ":" + EncodeDynamic(attrs[name].0, attrs[name].1, dumps).value
                && TypeItems(dyn)[j] == Quote(name) + ":" + QuotedCassandraType(attrs[name].0)
    {
      DynamicEntryAt(names, attrs, dumps, dyn, j);
      QuoteInjective(present[j], name);
    }
    forall i, j | 0 <= i < j < |exist|
      ensures exist[i] != exist[j]
    {
      QuoteInjective(present[i], present[j]);
    }
    if name in attrs && name !in info.schema.attributeTypeMap {
      assert name in names;
      var j :| 0 <= j < |present| && present[j] == name;
      assert exist[j] == Quote(name);
    }
  }

  /** No column of an INSERT is named twice: the `user_` columns are distinct from each
      other and from the system columns, which carry no `user_` prefix. */
  lemma FieldsDistinct(cols: SystemColumns, decl: seq<Entry>, indexed: bool)
    requires cols.Valid()
    requires NoDup(UserColumns(decl))
    ensures var fields := UserColumns(decl) + cols.DynamicColumns() + (if indexed then cols.IndexColumns() else []);
      && NoDup(fields)
      && forall k :: |decl| <= k < |fields| ==> !HasPrefix(fields[k], UserPrefix)
  {
    var user := UserColumns(decl);
    var sys := cols.DynamicColumns() + (if indexed then cols.IndexColumns() else []);
    var all := cols.DynamicColumns() + cols.IndexColumns();
    var fields := user + sys;
    assert fields == UserColumns(decl) + cols.DynamicColumns() + (if indexed then cols.IndexColumns() else []);
    assert forall k :: 0 <= k < |sys| ==> sys[k] == all[k];
    forall k | 0 <= k < |user|
      ensures HasPrefix(user[k], UserPrefix)
    {
      assert user[k][..|UserPrefix|] == UserPrefix;
    }
    forall i, j | 0 <= i < j < |fields|
      ensures fields[i] != fields[j]
    {
      if j >= |user| && i >= |user| {
        assert sys[i - |user|] == all[i - |user|] && sys[j - |user|] == all[j - |user|];
      } else if j >= |user| {
        assert HasPrefix(fields[i], UserPrefix) && !HasPrefix(fields[j], UserPrefix);
      }
    }
  }

  /** `_make_main_insert_query` routes every attribute of the record one way: a declared
      attribute to exactly one `user_<name>` column holding its predefined literal, any other
      attribute to the three dynamic collections under its quoted name; a declared attribute
      the record lacks appears in neither. */
  lemma InsertRouting(info: TableInfo, attrs: AttrMap, declOrder: seq<string>, keyOrder: seq<string>,
                      dumps: Serializer, cols: SystemColumns, c: Columns, dyn: seq<DynamicEntry>, name: string)
    requires cols.Valid()
    requires IsEnumeration(declOrder, info.schema.attributeTypeMap.Keys)
    requires IsEnumeration(keyOrder, attrs.Keys)
    requires MainInsertColumns(info, attrs, declOrder, keyOrder, dumps, cols) == Ok(c)
    requires DynamicEntries(DynamicNames(keyOrder, declOrder), attrs, dumps) == Ok(dyn)
    ensures NoDup(c.fields)
    ensures UserPrefix + name in c.fields <==> name in info.schema.attributeTypeMap && name in attrs
    ensures forall i :: 0 <= i < |c.fields| && c.fields[i] == UserPrefix + name ==>
              name in attrs && EncodePredefined(attrs[name].0, attrs[name].1) == Ok(c.values[i])
    ensures Quote(name) in ExistItems(dyn) <==> name in attrs && name !in info.schema.attributeTypeMap
    ensures !(UserPrefix + name in c.fields && Quote(name) in ExistItems(dyn))
    ensures var d := |Present(declOrder, attrs)|;
              d + 3 <= |c.values|
              && c.values[d..d + 3] == [Collection(ExistItems(dyn)), Collection(DataItems(dyn)), Collection(TypeItems(dyn))]
  {
    assert DeclaredEntries(declOrder, attrs).Ok?;
    var decl := DeclaredEntries(declOrder, attrs).value;
    assert |decl| == |Present(declOrder, attrs)| by {
      DeclaredEntriesValues(declOrder, attrs);
    }
    AssembledColumns(info, attrs, declOrder, keyOrder, dumps, cols, decl, dyn);
    DeclaredRouting(info, attrs, declOrder, decl, name);
    DynamicRouting(info, attrs, declOrder, keyOrder, dumps, dyn, name);
    FieldsDistinct(cols, decl, IsIndexed(info));
    var d := |decl|;
    assert HasPrefix(UserPrefix + name, UserPrefix) by {
      assert (UserPrefix + name)[..|UserPrefix|] == UserPrefix;
    }
    assert c.fields[..d] == UserColumns(decl);
    assert c.values[..d] == Literals(decl);
    assert UserPrefix + name in c.fields <==> UserPrefix + name in c.fields[..d];
    assert c.values[d..d + 3] == [Collection(ExistItems(dyn)), Collection(DataItems(dyn)), Collection(TypeItems(dyn))];
  }

  /** The shape of every INSERT built here: the `user_` columns come first, then the three
      system columns; the four index-slot columns follow exactly when the table has an
      index. */
  lemma InsertShape(info: TableInfo, attrs: AttrMap, declOrder: seq<string>, keyOrder: seq<string>,
                    dumps: Serializer, cols: SystemColumns, c: Columns)
    requires MainInsertColumns(info, attrs, declOrder, keyOrder, dumps, cols) == Ok(c)
    ensures var d := |Present(declOrder, attrs)|;
      && |c.fields| == |c.values| == d + 3 + (if IsIndexed(info) then 4 else 0)
      && (forall i :: 0 <= i < d ==> HasPrefix(c.fields[i], UserPrefix))
      && c.fields[d..d + 3] == cols.DynamicColumns()
      && (IsIndexed(info) ==> c.fields[d + 3..] == cols.IndexColumns() && c.values[d + 3..] == IndexSlotValues())
      && (!IsIndexed(info) ==> |c.fields| == d + 3)
  {
    assert DeclaredEntries(declOrder, attrs).Ok?;
    var decl := DeclaredEntries(declOrder, attrs).value;
    var dyn := DynamicEntries(DynamicNames(keyOrder, declOrder), attrs, dumps).value;
    assert |decl| == |Present(declOrder, attrs)| by {
      DeclaredEntriesValues(declOrder, attrs);
    }
    AssembledColumns(info, attrs, declOrder, keyOrder, dumps, cols, decl, dyn);
    var d := |decl|;
    var user := UserColumns(decl);
    var tail := if IsIndexed(info) then cols.IndexColumns() else [];
    assert c.fields == user + cols.DynamicColumns() + tail;
    forall k | 0 <= k < d
      ensures HasPrefix(c.fields[k], UserPrefix)
    {
      assert c.fields[k] == UserPrefix + decl[k].name;
      assert c.fields[k][..|UserPrefix|] == UserPrefix;
    }
    assert c.fields[d..d + 3] == cols.DynamicColumns();
    assert c.fields[d + 3..] == tail;
  }

  /** A record with no undeclared attribute leaves the three dynamic collections empty:
      each is written as `{}`. */
  lemma NoDynamicAttributes(info: TableInfo, attrs: AttrMap, declOrder: seq<string>, keyOrder: seq<string>,
                            dumps: Serializer, cols: SystemColumns, c: Columns)
    requires IsEnumeration(declOrder, info.schema.attributeTypeMap.Keys)
    requires IsEnumeration(keyOrder, attrs.Keys)
    requires MainInsertColumns(info, attrs, declOrder, keyOrder, dumps, cols) == Ok(c)
    requires forall n :: n in attrs ==> n in info.schema.attributeTypeMap
    ensures var d := |Present(declOrder, attrs)|;
      d + 3 <= |c.values| && c.values[d..d + 3] == [PyStr("{}"), PyStr("{}"), PyStr("{}")]
  {
    assert DeclaredEntries(declOrder, attrs).Ok?;
    var decl := DeclaredEntries(declOrder, attrs).value;
    var names := DynamicNames(keyOrder, declOrder);
    var dyn := DynamicEntries(names, attrs, dumps).value;
    assert |decl| == |Present(declOrder, attrs)| by {
      DeclaredEntriesValues(declOrder, attrs);
    }
    assert |dyn| == 0 by {
      DynamicEntriesValues(names, attrs, dumps);
      assert |Present(names, attrs)| == 0;
    }
    AssembledColumns(info, attrs, declOrder, keyOrder, dumps, cols, decl, dyn);
    assert ExistItems(dyn) == [] && DataItems(dyn) == [] && TypeItems(dyn) == [];
    assert Collection([]) == PyStr("{}");
    var d := |decl|;
    assert c.values[d..d + 3] == [Collection([]), Collection([]), Collection([])];
  }

  /** The first loop succeeds, with text literals only, when every declared attribute the
      record has holds a value as the decoder produces it. */
  lemma DeclaredSucceeds(info: TableInfo, attrs: AttrMap, declOrder: seq<string>)
    requires IsEnumeration(declOrder, info.schema.attributeTypeMap.Keys)
    requires forall n :: n in attrs && n in info.schema.attributeTypeMap ==>
               attrs[n].1.PyNone? || Canonical(attrs[n].0, attrs[n].1)
    ensures DeclaredEntries(declOrder, attrs).Ok?
    ensures AllStr(Literals(DeclaredEntries(declOrder, attrs).value))
  {
    DeclaredEntriesSpec(declOrder, attrs);
    forall n | n in declOrder && n in attrs
      ensures EncodePredefined(attrs[n].0, attrs[n].1).Ok? && EncodePredefined(attrs[n].0, attrs[n].1).value.PyStr?
    {
      WellFormedEncodes(attrs[n].0, attrs[n].1);
    }
  }

  /** The second loop succeeds when the serialiser accepts every other value. */
  lemma DynamicSucceeds(info: TableInfo, attrs: AttrMap, declOrder: seq<string>, keyOrder: seq<string>,
                        dumps: Serializer)
    requires IsEnumeration(declOrder, info.schema.attributeTypeMap.Keys)
    requires IsEnumeration(keyOrder, attrs.Keys)
    requires forall n :: n in attrs && n !in info.schema.attributeTypeMap && !attrs[n].1.PyNone? ==>
               dumps(attrs[n].1).Some?
    ensures DynamicEntries(DynamicNames(keyOrder, declOrder), attrs, dumps).Ok?
  {
    DynamicEntriesSpec(DynamicNames(keyOrder, declOrder), attrs, dumps);
  }

  /** An INSERT can always be built for a record whose declared attributes hold values as
      the decoder produces them and whose other values the serialiser accepts. */
  lemma InsertSucceeds(tenant: string, info: TableInfo, attrs: AttrMap, declOrder: seq<string>,
                       keyOrder: seq<string>, ifNotExists: bool, dumps: Serializer, cols: SystemColumns)
    requires IsEnumeration(declOrder, info.schema.attributeTypeMap.Keys)
    requires IsEnumeration(keyOrder, attrs.Keys)
    requires forall n :: n in attrs && n in info.schema.attributeTypeMap ==>
               attrs[n].1.PyNone? || Canonical(attrs[n].0, attrs[n].1)
    requires forall n :: n in attrs && n !in info.schema.attributeTypeMap && !attrs[n].1.PyNone? ==>
               dumps(attrs[n].1).Some?
    ensures MainInsertText(tenant, info, attrs, declOrder, keyOrder, ifNotExists, dumps, cols).Ok?
  {
    DeclaredSucceeds(info, attrs, declOrder);
    DynamicSucceeds(info, attrs, declOrder, keyOrder, dumps);
    var decl := DeclaredEntries(declOrder, attrs).value;
    var dyn := DynamicEntries(DynamicNames(keyOrder, declOrder), attrs, dumps).value;
    AssembledColumns(info, attrs, declOrder, keyOrder, dumps, cols, decl, dyn);
    var collections := [Collection(ExistItems(dyn)), Collection(DataItems(dyn)), Collection(TypeItems(dyn))];
    var tail := if IsIndexed(info) then IndexSlotValues() else [];
    assert AllStr(collections) && AllStr(tail);
    AllStrConcat(Literals(decl), collections);
    AllStrConcat(Literals(decl) + collections, tail);
  }

  lemma AllStrConcat(a: seq<PyValue>, b: seq<PyValue>)
    requires AllStr(a) && AllStr(b)
    ensures AllStr(a + b)
  {
    forall k | 0 <= k < |a + b|
      ensures (a + b)[k].PyStr?
    {
      if k >= |a| {
        assert (a + b)[k] == b[k - |a|];
      }
    }
  }
}
