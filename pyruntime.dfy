/** The slice of the Python 2 runtime that the bulk-load statement builder relies on:
    the values its encoders pass around, the exceptions they raise, `str.join`,
    iteration over a value, `list.remove`, `str(int)` and `int(str)`. */
module PyRuntime {

  type byte = b: int | 0 <= b < 256
  type Bytes = seq<byte>

  /** A Python value as the codec sees it: None, text, an integer, a byte string or a list. */
  datatype PyValue =
    | PyNone
    | PyStr(s: string)
    | PyInt(i: int)
    | PyBytes(b: Bytes)
    | PyList(items: seq<PyValue>)

  /** The exceptions the modelled code can raise. */
  datatype PyError =
    | StopIteration      // next() on the iterator of an empty dict
    | UnboundLocalError  // a local read before any branch bound it
    | TypeError          // wrong operand type (join of a non-string, iterating None, ...)
    | KeyError           // a dict lookup of a missing key
    | ValueError         // int() of text that is not an integer
    | Base64Error        // base64.decodestring rejected its argument
    | SerializeError     // ujson.dumps rejected its argument
    | AssertionError     // an `assert False` was reached
    | ReprOutsideModel   // the source would render a list's repr here; not modelled

  datatype Result<+T> = Ok(value: T) | Err(error: PyError)

  datatype Option<+T> = None | Some(value: T)

  predicate HasPrefix(s: string, p: string) {
    |p| <= |s| && s[..|p|] == p
  }

  predicate HasSuffix(s: string, p: string) {
    |p| <= |s| && s[|s| - |p|..] == p
  }

  predicate NoDup<T(==)>(xs: seq<T>) {
    forall i, j :: 0 <= i < j < |xs| ==> xs[i] != xs[j]
  }

  /** `xs` lists every element of `s` exactly once: the model of a dict's iteration order. */
  predicate IsEnumeration<T(==)>(xs: seq<T>, s: set<T>) {
    && NoDup(xs)
    && (forall i :: 0 <= i < |xs| ==> xs[i] in s)
    && (forall x | x in s :: x in xs)
  }

  /** How many times `x` occurs in `xs`. */
  function Occurrences<T(==)>(xs: seq<T>, x: T): nat {
    if |xs| == 0 then 0 else (if xs[0] == x then 1 else 0) + Occurrences(xs[1..], x)
  }

  /** `sep.join(parts)` for a list of strings. */
  function Join(sep: string, parts: seq<string>): string {
    if |parts| == 0 then ""
    else if |parts| == 1 then parts[0]
    else parts[0] + sep + Join(sep, parts[1..])
  }

  /** Appending a part puts one separator between the old join and the new part: what
      lets a builder list grown by `append` be read as one growing string. */
  lemma {:induction false} JoinSnoc(sep: string, parts: seq<string>, x: string)
    requires |parts| > 0
    ensures Join(sep, parts + [x]) == Join(sep, parts) + sep + x
  {
    if |parts| > 1 {
      assert (parts + [x])[1..] == parts[1..] + [x];
      JoinSnoc(sep, parts[1..], x);
    } else {
      assert (parts + [x])[1..] == [x];
    }
  }

  /** `''.join(parts + [x])` appends `x` to `''.join(parts)`. */
  lemma ConcatSnoc(parts: seq<string>, x: string)
    requires |parts| > 0
    ensures Join("", parts + [x]) == Join("", parts) + x
  {
    JoinSnoc("", parts, x);
    assert Join("", parts) + "" == Join("", parts);
  }

  predicate AllStr(vs: seq<PyValue>) {
    forall i :: 0 <= i < |vs| ==> vs[i].PyStr?
  }

  function Texts(vs: seq<PyValue>): (r: seq<string>)
    requires AllStr(vs)
    ensures |r| == |vs| && forall i :: 0 <= i < |vs| ==> vs[i] == PyStr(r[i])
  {
    seq(|vs|, i requires 0 <= i < |vs| => vs[i].s)
  }

  /** `sep.join(values)`: raises TypeError as soon as one item is not a string. */
  function JoinValues(sep: string, vs: seq<PyValue>): Result<string> {
    if AllStr(vs) then Ok(Join(sep, Texts(vs))) else Err(TypeError)
  }

  /** The items a `for v in value` loop visits: the characters of a text, the one-byte
      strings of a byte string, the elements of a list; None and integers are not iterable. */
  function Iterate(v: PyValue): Result<seq<PyValue>> {
    match v
    case PyStr(s) => Ok(seq(|s|, i requires 0 <= i < |s| => PyStr([s[i]])))
    case PyBytes(b) => Ok(seq(|b|, i requires 0 <= i < |b| => PyBytes([b[i]])))
    case PyList(items) => Ok(items)
    case _ => Err(TypeError)
  }

  /** Iterating a text visits its characters in order: joining what the loop sees gives
      the text back. */
  lemma {:induction false} IterateRejoins(s: string)
    ensures Iterate(PyStr(s)).Ok?
    ensures JoinValues("", Iterate(PyStr(s)).value) == Ok(s)
  {
    var items := Iterate(PyStr(s)).value;
    assert AllStr(items);
    CharactersRejoin(s, Texts(items));
  }

  lemma {:induction false} CharactersRejoin(s: string, parts: seq<string>)
    requires |parts| == |s| && forall i :: 0 <= i < |s| ==> parts[i] == [s[i]]
    ensures Join("", parts) == s
  {
    if |s| > 1 {
      CharactersRejoin(s[1..], parts[1..]);
      assert s == [s[0]] + s[1..];
    } else if |s| == 1 {
      assert s == [s[0]];
    }
  }

  /** `list.remove(x)` drops exactly the first occurrence: everything before it and
      everything after it stays, in order. */
  lemma RemoveFirstDropsFirst<T>(xs: seq<T>, x: T)
    requires x in xs
    ensures exists k :: 0 <= k < |xs| && xs[k] == x && x !in xs[..k]
                        && RemoveFirst(xs, x) == xs[..k] + xs[k + 1..]
  {
    var k := FirstOccurrence(xs, x);
  }

  lemma {:induction false} FirstOccurrence<T>(xs: seq<T>, x: T) returns (k: nat)
    requires x in xs
    ensures k < |xs| && xs[k] == x && x !in xs[..k]
    ensures RemoveFirst(xs, x) == xs[..k] + xs[k + 1..]
  {
    if xs[0] == x {
      k := 0;
    } else {
      var j := FirstOccurrence(xs[1..], x);
      k := j + 1;
      assert xs[..k] == [xs[0]] + xs[1..][..j];
      assert xs[k + 1..] == xs[1..][j + 1..];
    }
  }

  /** `list.remove(x)`: drops the first occurrence of `x` (the source only calls it on
      a name it has just found in the list). */
  function RemoveFirst<T(==)>(xs: seq<T>, x: T): (r: seq<T>)
    requires x in xs
    ensures |r| == |xs| - 1
    ensures Occurrences(r, x) == Occurrences(xs, x) - 1
  {
    if xs[0] == x then xs[1..] else [xs[0]] + RemoveFirst(xs[1..], x)
  }

  // ---- str(int) and int(str) ----

  predicate IsDigit(c: char) { '0' <= c <= '9' }

  /** C's isspace in the "C" locale: blank, tab, newline, vertical tab, form feed, carriage return. */
  predicate IsSpace(c: char) { c == ' ' || 9 <= c as int <= 13 }

  predicate IsDigits(s: string) {
    |s| > 0 && forall i :: 0 <= i < |s| ==> IsDigit(s[i])
  }

  function DigitChar(d: nat): (c: char)
    requires d < 10
    ensures IsDigit(c) && DigitValue(c) == d
  {
    (d + '0' as int) as char
  }

  function DigitValue(c: char): (d: nat)
    requires IsDigit(c)
    ensures d < 10
  {
    c as int - '0' as int
  }

  /** The value of a string of decimal digits, most significant first. */
  function DigitsValue(s: string): nat
    requires forall i :: 0 <= i < |s| ==> IsDigit(s[i])
  {
    if |s| == 0 then 0 else DigitsValue(s[..|s| - 1]) * 10 + DigitValue(s[|s| - 1])
  }

  /** The decimal digits of `n`, without leading zeros. */
  function NatText(n: nat): (r: string)
    ensures IsDigits(r)
  {
    if n < 10 then [DigitChar(n)] else NatText(n / 10) + [DigitChar(n % 10)]
  }

  /** `str(i)` for a Python integer. */
  function IntText(i: int): (r: string)
    ensures |r| > 0 && !IsSpace(r[0]) && !IsSpace(r[|r| - 1])
  {
    if i < 0 then "-" + NatText(-i) else NatText(i)
  }

  function TrimLeft(s: string): (r: string)
    ensures |r| <= |s| && (|r| > 0 ==> !IsSpace(r[0]))
  {
    if |s| > 0 && IsSpace(s[0]) then TrimLeft(s[1..]) else s
  }

  function TrimRight(s: string): (r: string)
    ensures |r| <= |s| && (|r| > 0 ==> !IsSpace(r[|r| - 1]))
  {
    if |s| > 0 && IsSpace(s[|s| - 1]) then TrimRight(s[..|s| - 1]) else s
  }

  /** `int(text)` in base 10 as Python 2 reads it: optional blanks, an optional sign,
      optional blanks again, one or more ASCII digits, optional blanks; anything else
      raises ValueError (`None` here). */
  function ParseInt(text: string): (r: Option<int>)
  {
    var t := TrimRight(TrimLeft(text));
    if |t| > 0 && (t[0] == '-' || t[0] == '+') then
      var digits := TrimLeft(t[1..]);
      if IsDigits(digits) then
        var magnitude: int := DigitsValue(digits);
        Some(if t[0] == '-' then -magnitude else magnitude)
      else None
    else if IsDigits(t) then Some(DigitsValue(t))
    else None
  }

  lemma {:induction false} NatTextValue(n: nat)
    ensures DigitsValue(NatText(n)) == n
  {
    if n >= 10 {
      var s := NatText(n);
      assert s[..|s| - 1] == NatText(n / 10);
      NatTextValue(n / 10);
    }
  }

  lemma TrimIdentity(s: string)
    requires |s| > 0 && !IsSpace(s[0]) && !IsSpace(s[|s| - 1])
    ensures TrimLeft(s) == s && TrimRight(s) == s
  {
  }

  /** `int(str(i)) == i`: the decimal text of an integer reads back as that integer. */
  lemma {:induction false} ParseIntText(i: int)
    ensures ParseInt(IntText(i)) == Some(i)
  {
    var s := IntText(i);
    TrimIdentity(s);
    if i < 0 {
      var d := NatText(-i);
      assert s[1..] == d;
      assert TrimLeft(d) == d;
      NatTextValue(-i);
    } else {
      NatTextValue(i);
    }
  }
}
