/** The attribute-value codec of the bulk loader: decoding of tagged external values
    (`parse_attr_val`, `_json_to_attribute_map`) and the CQL literal encoders for declared
    columns (`_encode_single_value_as_predefined_attr`, `_encode_predefined_attr_value`)
    and for the dynamic-attribute blob (`_encode_dynamic_attr_value`). */
module AttrCodec {
  import opened PyRuntime
  import Hex

  /** The six type tags of the external format. */
  datatype Tag = S | N | B | SS | NS | BS

  function TagName(t: Tag): string {
    match t
    case S => "S"
    case N => "N"
    case B => "B"
    case SS => "SS"
    case NS => "NS"
    case BS => "BS"
  }

  /** Which branch of `parse_attr_val` a tag string selects; `None` for every other string. */
  function ParseTag(name: string): (r: Option<Tag>)
    ensures r.Some? ==> TagName(r.value) == name
    ensures forall t :: TagName(t) == name ==> r == Some(t)
  {
    if name == "S" then Some(S)
    else if name == "N" then Some(N)
    else if name == "B" then Some(B)
    else if name == "SS" then Some(SS)
    else if name == "NS" then Some(NS)
    else if name == "BS" then Some(BS)
    else None
  }

  predicate IsSetTag(t: Tag) {
    t == SS || t == NS || t == BS
  }

  /** `attr_type[0]`: the tag a value, or each element of a set, is encoded under. */
  function ElementTag(t: Tag): (r: string)
    ensures r == "S" || r == "N" || r == "B"
  {
    [TagName(t)[0]]
  }

  /** `API_TO_CASSANDRA_TYPES`. */
  function CassandraType(t: Tag): string {
    match t
    case S => "text"
    case N => "decimal"
    case B => "blob"
    case SS => "set<text>"
    case NS => "set<decimal>"
    case BS => "set<blob>"
  }

  /** `API_TO_QUOTED_CASSANDRA_TYPES`: the same table with every type quoted as a CQL string. */
  function QuotedCassandraType(t: Tag): (r: string)
    ensures r == "'" + CassandraType(t) + "'"
  {
    match t
    case S => assert "'" + "text" + "'" == "'text'"; "'text'"
    case N => assert "'" + "decimal" + "'" == "'decimal'"; "'decimal'"
    case B => assert "'" + "blob" + "'" == "'blob'"; "'blob'"
    case SS => assert "'" + "set<text>" + "'" == "'set<text>'"; "'set<text>'"
    case NS => assert "'" + "set<decimal>" + "'" == "'set<decimal>'"; "'set<decimal>'"
    case BS => assert "'" + "set<blob>" + "'" == "'set<blob>'"; "'set<blob>'"
  }

  // ---- decoding ----

  /** The raw value under a tag as the JSON parser hands it over. */
  datatype RawValue = RawNull | RawStr(s: string) | RawList(items: seq<string>)

  /** One attribute's JSON object `{tag: raw}`, as its entries in the dict's iteration order. */
  type TaggedJson = seq<(string, RawValue)>

  /** `base64.decodestring`, which the model does not look into; `None` when it raises. */
  type Base64Decoder = string -> Option<Bytes>

  /** `ujson.dumps`, which the model does not look into; `None` when it raises. */
  type Serializer = PyValue -> Option<Bytes>

  /** A decoded record: attribute name to the `(tag, value)` pair parse_attr_val returned. */
  type AttrMap = map<string, (Tag, PyValue)>

  /** A raw JSON value as the Python object the parser built. */
  function AsPython(raw: RawValue): PyValue {
    match raw
    case RawNull => PyNone
    case RawStr(s) => PyStr(s)
    case RawList(xs) => PyList(seq(|xs|, i requires 0 <= i < |xs| => PyStr(xs[i])))
  }

  /** The strings a `for v in raw` loop visits; iterating JSON null raises TypeError. */
  function RawElements(raw: RawValue): (r: Option<seq<string>>)
    ensures r.None? <==> raw.RawNull?
    ensures raw.RawList? ==> r == Some(raw.items)
  {
    match raw
    case RawNull => None
    case RawStr(s) => Some(seq(|s|, i requires 0 <= i < |s| => [s[i]]))
    case RawList(xs) => Some(xs)
  }

  /** `[int(v) for v in elems]`. */
  function ParseInts(elems: seq<string>): (r: Result<seq<int>>)
    ensures r.Ok? <==> forall i :: 0 <= i < |elems| ==> ParseInt(elems[i]).Some?
    ensures r.Ok? ==> |r.value| == |elems|
    ensures r.Ok? ==> forall i :: 0 <= i < |elems| ==> ParseInt(elems[i]) == Some(r.value[i])
    ensures r.Err? ==> r.error == ValueError
  {
    if |elems| == 0 then Ok([])
    else
      match ParseInt(elems[0])
      case None => Err(ValueError)
      case Some(n) =>
        match ParseInts(elems[1..])
        case Err(e) => Err(e)
        case Ok(rest) => Ok([n] + rest)
  }

  /** `[base64.decodestring(v) for v in elems]`. */
  function DecodeAll(elems: seq<string>, b64: Base64Decoder): (r: Result<seq<Bytes>>)
    ensures r.Ok? <==> forall i :: 0 <= i < |elems| ==> b64(elems[i]).Some?
    ensures r.Ok? ==> |r.value| == |elems|
    ensures r.Ok? ==> forall i :: 0 <= i < |elems| ==> b64(elems[i]) == Some(r.value[i])
    ensures r.Err? ==> r.error == Base64Error
  {
    if |elems| == 0 then Ok([])
    else
      match b64(elems[0])
      case None => Err(Base64Error)
      case Some(b) =>
        match DecodeAll(elems[1..], b64)
        case Err(e) => Err(e)
        case Ok(rest) => Ok([b] + rest)
  }

  function IntList(ns: seq<int>): PyValue {
    PyList(seq(|ns|, i requires 0 <= i < |ns| => PyInt(ns[i])))
  }

  function BytesList(bs: seq<Bytes>): PyValue {
    PyList(seq(|bs|, i requires 0 <= i < |bs| => PyBytes(bs[i])))
  }

  /** `parse_attr_val`: reads the first entry of the attribute's JSON object and decodes
      its raw value by tag. */
  function ParseAttrVal(json: TaggedJson, b64: Base64Decoder): (r: Result<(Tag, PyValue)>)
    // an empty object: next() on its iterator raises
    ensures |json| == 0 ==> r == Err(StopIteration)
    // an unknown tag matches no branch, and `attr_val` is never bound
    ensures |json| > 0 && ParseTag(json[0].0).None? ==> r == Err(UnboundLocalError)
    // the tag comes back unchanged
    ensures r.Ok? ==> TagName(r.value.0) == json[0].0
    // S, N and SS always succeed and hand the raw value through untouched
    ensures |json| > 0 && json[0].0 in {"S", "N", "SS"} ==> r.Ok? && r.value.1 == AsPython(json[0].1)
    // B base64-decodes a string
    ensures |json| > 0 && json[0].0 == "B" ==>
              (r.Ok? <==> json[0].1.RawStr? && b64(json[0].1.s).Some?)
    ensures r.Ok? && r.value.0 == B ==> r.value.1 == PyBytes(b64(json[0].1.s).value)
    // NS applies int() to every element, BS base64-decodes every element
    ensures |json| > 0 && json[0].0 == "NS" ==>
              (r.Ok? <==> RawElements(json[0].1).Some?
                          && forall i :: 0 <= i < |RawElements(json[0].1).value| ==>
                               ParseInt(RawElements(json[0].1).value[i]).Some?)
    ensures r.Ok? && r.value.0 == NS ==>
              var elems := RawElements(json[0].1).value;
              r.value.1.PyList? && |r.value.1.items| == |elems|
              && forall i :: 0 <= i < |elems| ==> ParseInt(elems[i]).Some? && r.value.1.items[i] == PyInt(ParseInt(elems[i]).value)
    ensures |json| > 0 && json[0].0 == "BS" ==>
              (r.Ok? <==> RawElements(json[0].1).Some?
                          && forall i :: 0 <= i < |RawElements(json[0].1).value| ==>
                               b64(RawElements(json[0].1).value[i]).Some?)
    ensures r.Ok? && r.value.0 == BS ==>
              var elems := RawElements(json[0].1).value;
              r.value.1.PyList? && |r.value.1.items| == |elems|
              && forall i :: 0 <= i < |elems| ==> b64(elems[i]).Some? && r.value.1.items[i] == PyBytes(b64(elems[i]).value)
  {
    if |json| == 0 then Err(StopIteration)
    else
      var (name, raw) := json[0];
      match ParseTag(name)
      case None => Err(UnboundLocalError)
      case Some(t) =>
        match t
        case S => Ok((S, AsPython(raw)))
        case N => Ok((N, AsPython(raw)))
        case SS => Ok((SS, AsPython(raw)))
        case B =>
          if !raw.RawStr? then Err(TypeError)
          else if b64(raw.s).None? then Err(Base64Error)
          else Ok((B, PyBytes(b64(raw.s).value)))
        case NS =>
          if raw.RawNull? then Err(TypeError)
          else
            (match ParseInts(RawElements(raw).value)
             case Err(e) => Err(e)
             case Ok(ns) => Ok((NS, IntList(ns))))
        case BS =>
          if raw.RawNull? then Err(TypeError)
          else
            match DecodeAll(RawElements(raw).value, b64)
            case Err(e) => Err(e)
            case Ok(bs) => Ok((BS, BytesList(bs)))
  }

  /** `_json_to_attribute_map`: decodes every attribute of a record; the record fails as a
      whole as soon as one attribute fails (which attribute's exception surfaces depends on
      the dict's iteration order, so the model only reports that one did). */
  function JsonToAttributeMap(json: map<string, TaggedJson>, b64: Base64Decoder): (r: Option<AttrMap>)
    ensures r.Some? <==> forall name | name in json :: ParseAttrVal(json[name], b64).Ok?
    ensures r.Some? ==> r.value.Keys == json.Keys
    ensures r.Some? ==> forall name | name in json :: Ok(r.value[name]) == ParseAttrVal(json[name], b64)
  {
    if forall name | name in json :: ParseAttrVal(json[name], b64).Ok? then
      Some(map name | name in json :: ParseAttrVal(json[name], b64).value)
    else None
  }

  /** The values the decoder builds from well-formed external input: text for S and N,
      bytes for B, and lists of text, integers or bytes for the set tags. */
  predicate Canonical(t: Tag, v: PyValue) {
    match t
    case S => v.PyStr?
    case N => v.PyStr?
    case B => v.PyBytes?
    case SS => v.PyList? && forall i :: 0 <= i < |v.items| ==> v.items[i].PyStr?
    case NS => v.PyList? && forall i :: 0 <= i < |v.items| ==> v.items[i].PyInt?
    case BS => v.PyList? && forall i :: 0 <= i < |v.items| ==> v.items[i].PyBytes?
  }

  /** No value the decoder produces is a bare integer (integers only occur inside a decoded
      number set), so on every decoded value the single-value encoder as written and the
      corrected one agree. */
  lemma DecodedNeverInteger(json: TaggedJson, b64: Base64Decoder, tag: string)
    requires ParseAttrVal(json, b64).Ok?
    ensures !ParseAttrVal(json, b64).value.1.PyInt?
    ensures EncodeSingleAsWritten(tag, ParseAttrVal(json, b64).value.1) == EncodeSingle(tag, ParseAttrVal(json, b64).value.1)
  {
  }

  /** The external JSON object a canonical value is sent as: numbers as their decimal text,
      binary data through a base64 encoder. */
  function Externalize(t: Tag, v: PyValue, b64encode: Bytes -> string): TaggedJson
    requires Canonical(t, v)
  {
    var raw :=
      match t
      case S => RawStr(v.s)
      case N => RawStr(v.s)
      case B => RawStr(b64encode(v.b))
      case SS => RawList(seq(|v.items|, i requires 0 <= i < |v.items| => v.items[i].s))
      case NS => RawList(seq(|v.items|, i requires 0 <= i < |v.items| => IntText(v.items[i].i)))
      case BS => RawList(seq(|v.items|, i requires 0 <= i < |v.items| => b64encode(v.items[i].b)));
    [(TagName(t), raw)]
  }

  /** Decoding inverts the external encoding for every tag, given a base64 decoder that
      inverts the encoder. */
  lemma DecodeExternalized(t: Tag, v: PyValue, b64: Base64Decoder, b64encode: Bytes -> string)
    requires Canonical(t, v)
    requires forall bytes :: b64(b64encode(bytes)) == Some(bytes)
    ensures ParseAttrVal(Externalize(t, v, b64encode), b64) == Ok((t, v))
  {
    var raw := Externalize(t, v, b64encode)[0].1;
    match t
    case S =>
    case N =>
    case B =>
    case SS =>
      assert AsPython(raw).items == v.items;
    case NS =>
      var elems := raw.items;
      forall i | 0 <= i < |elems| ensures ParseInt(elems[i]) == Some(v.items[i].i) {
        ParseIntText(v.items[i].i);
      }
      var ns := ParseInts(elems).value;
      assert IntList(ns).items == v.items;
    case BS =>
      var elems := raw.items;
      var bs := DecodeAll(elems, b64).value;
      assert BytesList(bs).items == v.items;
  }

  // ---- encoding ----

  /** A CQL blob literal: `0x` followed by an even number of lower-case hex digits. */
  predicate IsBlobLiteral(s: string) {
    |s| >= 2 && s[..2] == "0x" && |s| % 2 == 0 && Hex.IsLowerHex(s[2..])
  }

  /** The text `'{}'.format(v)` substitutes for a value; a list would be substituted by its
      repr, which this model does not render. */
  function FormatText(v: PyValue): Result<string> {
    match v
    case PyNone => Ok("None")
    case PyStr(s) => Ok(s)
    case PyInt(i) => Ok(IntText(i))
    case PyBytes(b) => Ok(seq(|b|, k requires 0 <= k < |b| => b[k] as char))
    case PyList(_) => Err(ReprOutsideModel)
  }

  /** `_encode_single_value_as_predefined_attr`, with integers (the elements of a decoded
      NS set) rendered as their decimal text; the source returns them unchanged, see
      EncodeSingleAsWritten. */
  function EncodeSingle(tag: string, v: PyValue): (r: Result<PyValue>)
    // any tag but S, N and B is an assertion failure
    ensures tag != "S" && tag != "N" && tag != "B" ==> r == Err(AssertionError)
    // text is quoted, with no escaping of quotes inside it
    ensures tag == "S" && v.PyStr? ==> r == Ok(PyStr("'" + v.s + "'"))
    // a number's text passes through unchanged; an integer becomes text int() reads back
    ensures tag == "N" && !v.PyInt? ==> r == Ok(v)
    ensures tag == "N" && v.PyInt? ==> r.Ok? && r.value.PyStr? && ParseInt(r.value.s) == Some(v.i)
    // binary becomes a blob literal whose digits decode to the very bytes
    ensures tag == "B" ==> (r.Ok? <==> v.PyBytes?)
    ensures tag == "B" && r.Ok? ==>
              r.value.PyStr? && IsBlobLiteral(r.value.s) && Hex.Unhexlify(r.value.s[2..]) == Some(v.b)
  {
    if tag == "S" then
      match FormatText(v)
      case Err(e) => Err(e)
      case Ok(text) => Ok(PyStr("'" + text + "'"))
    else if tag == "N" then
      if v.PyInt? then ParseIntText(v.i); Ok(PyStr(IntText(v.i))) else Ok(v)
    else if tag == "B" then
      if v.PyBytes? then
        Hex.UnhexlifyHexlify(v.b);
        var lit := "0x" + Hex.Hexlify(v.b);
        assert lit[2..] == Hex.Hexlify(v.b);
        Ok(PyStr(lit))
      else Err(TypeError)
    else Err(AssertionError)
  }

  /** `_encode_single_value_as_predefined_attr` as written: a number is returned unchanged,
      even when int() has already turned it into a Python integer. */
  function EncodeSingleAsWritten(tag: string, v: PyValue): (r: Result<PyValue>)
    // on anything but an integer it is the corrected encoder
    ensures !v.PyInt? ==> r == EncodeSingle(tag, v)
    // an integer under the number tag comes back as a value that is not text
    ensures tag == "N" && v.PyInt? ==> r.Ok? && !r.value.PyStr?
  {
    if tag == "N" then Ok(v) else EncodeSingle(tag, v)
  }

  /** The list comprehension that encodes each element of a set; the first failure raises. */
  function EncodeAll(single: (string, PyValue) -> Result<PyValue>, tag: string, items: seq<PyValue>)
    : (r: Result<seq<PyValue>>)
    ensures r.Ok? <==> forall i :: 0 <= i < |items| ==> single(tag, items[i]).Ok?
    ensures r.Ok? ==> |r.value| == |items|
    ensures r.Ok? ==> forall i :: 0 <= i < |items| ==> single(tag, items[i]) == Ok(r.value[i])
  {
    if |items| == 0 then Ok([])
    else
      match single(tag, items[0])
      case Err(e) => Err(e)
      case Ok(lit) =>
        match EncodeAll(single, tag, items[1..])
        case Err(e) => Err(e)
        case Ok(rest) => Ok([lit] + rest)
  }

  /** The body of `_encode_predefined_attr_value` over a given single-value encoder. */
  function EncodePredefinedWith(single: (string, PyValue) -> Result<PyValue>, t: Tag, v: PyValue)
    : Result<PyValue>
  {
    if v.PyNone? then Ok(PyStr("null"))
    else if IsSetTag(t) then
      match Iterate(v)
      case Err(e) => Err(e)
      case Ok(items) =>
        match EncodeAll(single, ElementTag(t), items)
        case Err(e) => Err(e)
        case Ok(lits) =>
          match JoinValues(",", lits)
          case Err(e) => Err(e)
          case Ok(body) => Ok(PyStr("{" + body + "}"))
    else single(ElementTag(t), v)
  }

  /** `_encode_predefined_attr_value` (with the corrected number rule): the literal for a
      declared column. */
  function EncodePredefined(t: Tag, v: PyValue): (r: Result<PyValue>)
    ensures v.PyNone? ==> r == Ok(PyStr("null"))
    ensures !v.PyNone? && !IsSetTag(t) ==> r == EncodeSingle(ElementTag(t), v)
    // a set is `{` + the element literals joined by `,` + `}`, one entry per element
    ensures !v.PyNone? && IsSetTag(t) && r.Ok? ==>
              && Iterate(v).Ok?
              && var lits := EncodeAll(EncodeSingle, ElementTag(t), Iterate(v).value);
              && lits.Ok? && |lits.value| == |Iterate(v).value| && AllStr(lits.value)
              && r == Ok(PyStr("{" + Join(",", Texts(lits.value)) + "}"))
  {
    EncodePredefinedWith(EncodeSingle, t, v)
  }

  /** `_encode_predefined_attr_value` exactly as written. */
  function EncodePredefinedAsWritten(t: Tag, v: PyValue): Result<PyValue> {
    EncodePredefinedWith(EncodeSingleAsWritten, t, v)
  }

  /** Two element encoders that agree on every item encode the list alike. */
  lemma {:induction false} EncodeAllAgree(f: (string, PyValue) -> Result<PyValue>, g: (string, PyValue) -> Result<PyValue>,
                                          tag: string, items: seq<PyValue>)
    requires forall i :: 0 <= i < |items| ==> f(tag, items[i]) == g(tag, items[i])
    ensures EncodeAll(f, tag, items) == EncodeAll(g, tag, items)
  {
    if |items| > 0 {
      EncodeAllAgree(f, g, tag, items[1..]);
    }
  }

  /** The number rule is the only difference: on every well-formed value of any other type
      the encoder as written and the corrected one produce the same literal. */
  lemma AsWrittenAgreesOffNumberSets(t: Tag, v: PyValue)
    requires Canonical(t, v) && t != NS
    ensures EncodePredefinedAsWritten(t, v) == EncodePredefined(t, v)
  {
    if IsSetTag(t) {
      var items := Iterate(v).value;
      EncodeAllAgree(EncodeSingleAsWritten, EncodeSingle, ElementTag(t), items);
    }
  }

  /** As written, no non-empty number set can be written to a declared column: its elements
      are integers, the encoder returns them unchanged and `','.join` raises TypeError. */
  lemma NumberSetsAsWrittenRaise(v: PyValue)
    requires Canonical(NS, v) && |v.items| > 0
    ensures EncodePredefinedAsWritten(NS, v) == Err(TypeError)
  {
    var lits := EncodeAll(EncodeSingleAsWritten, "N", v.items);
    assert lits.Ok? && !lits.value[0].PyStr? by {
      assert ElementTag(NS) == "N";
      assert EncodeSingleAsWritten("N", v.items[0]) == Ok(lits.value[0]);
    }
  }

  /** `_encode_dynamic_attr_value`: `null`, or a blob literal of the serialised value. */
  function EncodeDynamic(t: Tag, v: PyValue, dumps: Serializer): (r: Result<string>)
    ensures v.PyNone? ==> r == Ok("null")
    ensures !v.PyNone? ==> (r.Ok? <==> dumps(v).Some?)
    ensures !v.PyNone? && r.Ok? ==> IsBlobLiteral(r.value) && Hex.Unhexlify(r.value[2..]) == dumps(v)
  {
    if v.PyNone? then Ok("null")
    else
      match dumps(v)
      case None => Err(SerializeError)
      case Some(bytes) =>
        Hex.UnhexlifyHexlify(bytes);
        var lit := "0x" + Hex.Hexlify(bytes);
        assert lit[2..] == Hex.Hexlify(bytes);
        Ok(lit)
  }

  /** Every value the decoder builds from well-formed input, and None, has a declared-column
      literal, and that literal is text. */
  lemma WellFormedEncodes(t: Tag, v: PyValue)
    requires v.PyNone? || Canonical(t, v)
    ensures EncodePredefined(t, v).Ok? && EncodePredefined(t, v).value.PyStr?
  {
    if !v.PyNone? && IsSetTag(t) {
      var items := Iterate(v).value;
      var tag := ElementTag(t);
      forall i | 0 <= i < |items| ensures EncodeSingle(tag, items[i]).Ok? && EncodeSingle(tag, items[i]).value.PyStr? {
      }
      var lits := EncodeAll(EncodeSingle, tag, items).value;
      assert AllStr(lits);
    }
  }

  /** A one-element text set whose element holds `','`. */
  lemma EmbeddedQuoteSetLiteral()
    ensures EncodePredefined(SS, PyList([PyStr("a','b")])) == Ok(PyStr("{'a','b'}"))
  {
    var x, qx := PyStr("a','b"), PyStr("'a','b'");
    assert "'" + "a','b" + "'" == "'a','b'";
    assert [x][1..] == [] && [qx] + [] == [qx];
    assert EncodeAll(EncodeSingle, "S", [x]) == Ok([qx]);
    assert Texts([qx]) == ["'a','b'"];
    assert "{" + "'a','b'" + "}" == "{'a','b'}";
  }

  /** The two-element text set `a`, `b`. */
  lemma TwoElementSetLiteral()
    ensures EncodePredefined(SS, PyList([PyStr("a"), PyStr("b")])) == Ok(PyStr("{'a','b'}"))
  {
    var a, b := PyStr("a"), PyStr("b");
    var qa, qb := PyStr("'a'"), PyStr("'b'");
    assert "'" + "a" + "'" == "'a'" && "'" + "b" + "'" == "'b'";
    assert [a, b][1..] == [b] && [b][1..] == [];
    assert [qb] + [] == [qb] && [qa] + [qb] == [qa, qb];
    assert EncodeAll(EncodeSingle, "S", [b]) == Ok([qb]);
    assert EncodeAll(EncodeSingle, "S", [a, b]) == Ok([qa, qb]);
    assert Texts([qa, qb]) == ["'a'", "'b'"];
    assert ["'a'", "'b'"][1..] == ["'b'"];
    assert Join(",", ["'a'", "'b'"]) == "'a','b'";
    assert "{" + "'a','b'" + "}" == "{'a','b'}";
  }

  /** Quotes inside text are not escaped, so a one-element text set whose element holds
      `','` has the same literal as a two-element set. */
  lemma UnescapedSetLiteralsCollide()
    ensures EncodePredefined(SS, PyList([PyStr("a','b")]))
         == EncodePredefined(SS, PyList([PyStr("a"), PyStr("b")]))
         == Ok(PyStr("{'a','b'}"))
  {
    EmbeddedQuoteSetLiteral();
    TwoElementSetLiteral();
  }

  /** int() reads the elements of a number set, so `{"NS": ["1"]}` decodes to a list of
      Python integers. */
  lemma NumberSetDecodes(b64: Base64Decoder)
    ensures ParseAttrVal([("NS", RawList(["1"]))], b64) == Ok((NS, PyList([PyInt(1)])))
  {
    assert ParseInt("1") == Some(1) by {
      assert TrimLeft("1") == "1" && TrimRight("1") == "1";
      assert DigitsValue("1") == 1 by {
        assert "1"[..0] == "";
      }
    }
    assert ["1"][1..] == [] && [1] + [] == [1];
    assert ParseInts(["1"]) == Ok([1]);
    assert IntList([1]).items == [PyInt(1)];
  }

  /** The corrected encoder renders the integer as its decimal text. */
  lemma NumberSetCorrected()
    ensures EncodePredefined(NS, PyList([PyInt(1)])) == Ok(PyStr("{1}"))
  {
    assert ElementTag(NS) == "N";
    assert [PyInt(1)][1..] == [] && [PyStr("1")] + [] == [PyStr("1")];
    assert NatText(1) == "1";
    assert EncodeSingle("N", PyInt(1)) == Ok(PyStr("1"));
    assert EncodeAll(EncodeSingle, "N", [PyInt(1)]) == Ok([PyStr("1")]);
    assert Texts([PyStr("1")]) == ["1"];
    assert "{" + "1" + "}" == "{1}";
  }

  /** As written, a number set cannot be written to a declared column: int() turns its
      elements into integers, the encoder returns them unchanged and `','.join` raises
      TypeError. With the number rule corrected the same value renders as `{1}`. */
  lemma NumberSetAsWrittenFails(b64: Base64Decoder)
    ensures ParseAttrVal([("NS", RawList(["1"]))], b64) == Ok((NS, PyList([PyInt(1)])))
    ensures EncodePredefinedAsWritten(NS, PyList([PyInt(1)])) == Err(TypeError)
    ensures EncodePredefined(NS, PyList([PyInt(1)])) == Ok(PyStr("{1}"))
  {
    NumberSetDecodes(b64);
    NumberSetsAsWrittenRaise(PyList([PyInt(1)]));
    NumberSetCorrected();
  }
}
