/** JSON values, their printer and the builder that turns tokens back into values
    (c_binding/lsm_value_jsmn.hpp). */
module JsonValue {
  import opened Jsmn
  import opened Texts

  /** `Value`: the text of a number is kept as it stands; an object is a `std::map`,
      written as its pairs in key order. */
  datatype Value =
    | Null
    | Bool(b: bool)
    | Num(text: string)
    | Str(text: string)
    | Arr(elems: seq<Value>)
    | Obj(members: seq<Member>)

  datatype Member = Member(key: string, value: Value)

  // ----- maps in key order

  predicate Sorted(ms: seq<Member>) {
    forall i, j | 0 <= i < j < |ms| :: Less(ms[i].key, ms[j].key)
  }

  /** `m[key] = value` on a `std::map`. */
  function Insert(ms: seq<Member>, key: string, value: Value): (r: seq<Member>)
    ensures forall m | m in r :: m in ms || m == Member(key, value)
  {
    if ms == [] then [Member(key, value)]
    else if ms[0].key == key then [Member(key, value)] + ms[1..]
    else if Less(key, ms[0].key) then [Member(key, value)] + ms
    else [ms[0]] + Insert(ms[1..], key, value)
  }

  // ----- the values that the wire format can carry

  /** Text read back as a number: a primitive that is not taken for null, true or false. */
  predicate NumText(s: string) {
    PrimitiveText(s) && s[0] != 'n' && s[0] != 't' && s[0] != 'f'
  }

  /** Numbers, strings and keys are text the tokenizer reads back as one token, and
      objects have their keys in order. */
  predicate WellFormed(v: Value) {
    match v
    case Null => true
    case Bool(_) => true
    case Num(s) => NumText(s)
    case Str(s) => Units(s)
    case Arr(es) => forall e | e in es :: WellFormed(e)
    case Obj(ms) => Sorted(ms) && forall m | m in ms :: Units(m.key) && WellFormed(m.value)
  }

  // ----- Value::serialize

  function Serialize(v: Value): string {
    match v
    case Null => "null"
    case Bool(b) => if b then "true" else "false"
    case Num(s) => s
    case Str(s) => "\"" + s + "\""
    case Arr(es) => "[" + SerializeElems(es)
    case Obj(ms) => "{" + SerializeMembers(ms)
  }

  /** The elements with the closing bracket. */
  function SerializeElems(es: seq<Value>): string {
    if es == [] then "]"
    else Serialize(es[0]) + if |es| == 1 then "]" else ", " + SerializeElems(es[1..])
  }

  function SerializeKey(key: string): string {
    "\"" + key + "\": "
  }

  /** The members with the closing bracket. */
  function SerializeMembers(ms: seq<Member>): string {
    if ms == [] then "}"
    else
      SerializeKey(ms[0].key) +
      (Serialize(ms[0].value) + if |ms| == 1 then "}" else ", " + SerializeMembers(ms[1..]))
  }

  /** `Value::serialize`. */
  method SerializeValue(v: Value) returns (s: string)
    ensures s == Serialize(v)
    decreases v
  {
    match v {
      case Str(t) => s := "\"" + t + "\"";
      case Obj(ms) => s := SerializeObject(ms);
      case Arr(es) => s := SerializeArray(es);
      case Num(t) => s := t;
      case Null => s := "null";
      case Bool(b) => s := if b then "true" else "false";
    }
  }

  /** Its loop over the pairs of an object. */
  method SerializeObject(ms: seq<Member>) returns (s: string)
    ensures s == "{" + SerializeMembers(ms)
    decreases ms
  {
    s := "{";
    var i := 0;
    while i < |ms|
      invariant i <= |ms|
      invariant s + SerializeMembers(ms[i..]) == "{" + SerializeMembers(ms)
    {
      assert ms[i..][0] == ms[i] && ms[i..][1..] == ms[i + 1..];
      s := s + SerializeKey(ms[i].key);
      var t := SerializeValue(ms[i].value);
      s := s + t;
      if i + 1 < |ms| {
        s := s + ", ";
      }
      i := i + 1;
    }
    s := s + "}";
  }

  /** Its loop over the elements of an array. */
  method SerializeArray(es: seq<Value>) returns (s: string)
    ensures s == "[" + SerializeElems(es)
    decreases es
  {
    s := "[";
    var i := 0;
    while i < |es|
      invariant i <= |es|
      invariant s + SerializeElems(es[i..]) == "[" + SerializeElems(es)
    {
      assert es[i..][0] == es[i] && es[i..][1..] == es[i + 1..];
      var t := SerializeValue(es[i]);
      s := s + t;
      if i + 1 < |es| {
        s := s + ", ";
      }
      i := i + 1;
    }
    s := s + "]";
  }

  // ----- lsm_parse

  datatype Built<T> = Built(value: T, next: nat) | Thrown

  /** Tokens whose spans lie inside the text. */
  predicate Spans(tok: seq<Token>, js: string) {
    forall k | 0 <= k < |tok| :: Within(js, tok[k])
  }

  function Text(js: string, t: Token): string
    requires Within(js, t)
  {
    js[t.start..t.end]
  }

  function Leaf(js: string, t: Token): Value
    requires Within(js, t)
  {
    var c := if t.start < |js| then js[t.start] else '\0';
    if c == 'n' then Null
    else if c == 't' then Bool(true)
    else if c == 'f' then Bool(false)
    else Num(Text(js, t))
  }

  /** `lsm_parse` from token `i`; `next` is the last token it used, `Thrown` stands for
      the ValueException. */
  function Build(tok: seq<Token>, i: nat, end: nat, js: string): (r: Built<Value>)
    requires i < |tok| && end <= |tok| && Spans(tok, js)
    ensures r.Built? ==> i <= r.next && (r.next == i || r.next < end)
    decreases |tok| - i, 1
  {
    match tok[i].kind
    case Primitive => Built(Leaf(js, tok[i]), i)
    case String => Built(Str(Text(js, tok[i])), i)
    case Array =>
      (match BuildElems(tok, i, end, js, tok[i].size, [])
       case Built(es, k) => Built(Arr(es), k)
       case Thrown => Thrown)
    case Object =>
      (match BuildMembers(tok, i, end, js, tok[i].size, [])
       case Built(ms, k) => Built(Obj(ms), k)
       case Thrown => Thrown)
    case Undefined => Thrown
  }

  /** The loop over `n` more array elements, the last token used being `i`. */
  function BuildElems(tok: seq<Token>, i: nat, end: nat, js: string, n: int, acc: seq<Value>): (r: Built<seq<Value>>)
    requires i < |tok| && end <= |tok| && Spans(tok, js)
    ensures r.Built? ==> i <= r.next && (r.next == i || r.next < end)
    decreases |tok| - i, 0
  {
    if n <= 0 then Built(acc, i)
    else if i + 1 >= end then Thrown
    else
      match Build(tok, i + 1, end, js)
      case Thrown => Thrown
      case Built(v, k) => BuildElems(tok, k, end, js, n - 1, acc + [v])
  }

  /** The loop over `n` more object members, the last token used being `i`. */
  function BuildMembers(tok: seq<Token>, i: nat, end: nat, js: string, n: int,
                        acc: seq<Member>): (r: Built<seq<Member>>)
    requires i < |tok| && end <= |tok| && Spans(tok, js)
    ensures r.Built? ==> i <= r.next && (r.next == i || r.next < end)
    decreases |tok| - i, 0
  {
    if n <= 0 then Built(acc, i)
    else if i + 1 >= end || tok[i + 1].kind != String || i + 2 >= end then Thrown
    else
      match Build(tok, i + 2, end, js)
      case Thrown => Thrown
      case Built(v, k) => BuildMembers(tok, k, end, js, n - 1, Insert(acc, Text(js, tok[i + 1]), v))
  }

  /** `inc_token`: the amount to step, or the exception. */
  function IncToken(current: nat, amount: nat, max: nat): Built<nat> {
    if current + amount >= max then Thrown else Built(amount, current + amount)
  }

  /** `lsm_parse`: whatever the token kinds and sizes, it ends, uses tokens below `end`
      only and consumes fewer than `end - start` of them. */
  method LsmParse(tok: seq<Token>, start: nat, end: nat, js: string) returns (r: Built<Value>, consumed: nat)
    requires start < |tok| && end <= |tok| && Spans(tok, js)
    ensures r == Build(tok, start, end, js)
    ensures r.Built? ==> r.next == start + consumed
    ensures r.Built? && start < end ==> consumed < end - start
    decreases |tok| - start, 1
  {
    consumed := 0;
    match tok[start].kind {
      case Primitive => r := Built(Leaf(js, tok[start]), start);
      case String => r := Built(Str(Text(js, tok[start])), start);
      case Array =>
        var es := ParseArray(tok, start, end, js);
        r := if es.Built? then Built(Arr(es.value), es.next) else Thrown;
      case Object =>
        var ms := ParseObject(tok, start, end, js);
        r := if ms.Built? then Built(Obj(ms.value), ms.next) else Thrown;
      case Undefined => r := Thrown;
    }
    if r.Built? {
      consumed := r.next - start;
    }
  }

  /** Its loop over array elements. */
  method ParseArray(tok: seq<Token>, start: nat, end: nat, js: string) returns (r: Built<seq<Value>>)
    requires start < |tok| && end <= |tok| && Spans(tok, js)
    ensures r == BuildElems(tok, start, end, js, tok[start].size, [])
    decreases |tok| - start, 0
  {
    var i := start;
    var values: seq<Value> := [];
    var num := tok[start].size;
    var e := 0;
    while e < num
      invariant e <= num || e == 0
      invariant start <= i < |tok| && (i == start || i < end)
      invariant BuildElems(tok, i, end, js, num - e, values) == BuildElems(tok, start, end, js, num, [])
    {
      if IncToken(i, 1, end).Thrown? {
        return Thrown;
      }
      i := i + 1;
      var v, used := LsmParse(tok, i, end, js);
      if v.Thrown? || IncToken(i, used, end).Thrown? {
        return Thrown;
      }
      i := i + used;
      values := values + [v.value];
      e := e + 1;
    }
    return Built(values, i);
  }

  /** Its loop over object members. */
  method ParseObject(tok: seq<Token>, start: nat, end: nat, js: string) returns (r: Built<seq<Member>>)
    requires start < |tok| && end <= |tok| && Spans(tok, js)
    ensures r == BuildMembers(tok, start, end, js, tok[start].size, [])
    decreases |tok| - start, 0
  {
    hide Build, Insert;
    var i := start;
    var values: seq<Member> := [];
    var num := tok[start].size;
    var e := 0;
    while e < num
      invariant e <= num || e == 0
      invariant start <= i < |tok| && (i == start || i < end)
      invariant BuildMembers(tok, i, end, js, num - e, values) == BuildMembers(tok, start, end, js, num, [])
    {
      if IncToken(i, 1, end).Thrown? {
        return Thrown;
      }
      i := i + 1;
      if tok[i].kind != String || IncToken(i, 1, end).Thrown? {
        return Thrown;
      }
      var key := Text(js, tok[i]);
      i := i + 1;
      var v, used := LsmParse(tok, i, end, js);
      if v.Thrown? || IncToken(i, used, end).Thrown? {
        return Thrown;
      }
      i := i + used;
      values := Insert(values, key, v.value);
      e := e + 1;
    }
    return Built(values, i);
  }
}
