/** JSON texts of any layout: values with the white space around their parts, what such a
    text says, and the layout that the printer of c_binding/lsm_value_jsmn.hpp uses. */
module JsonText {
  import opened Jsmn
  import opened JsonValue
  import opened Texts

  // ----- texts with their layout

  /** A literal, a number or a string; an array or object with the white space in it, where
      `pad` is what stands between the brackets of an empty one. */
  datatype Doc =
    | Lit(v: Value)
    | ArrDoc(pad: string, items: seq<Item>)
    | ObjDoc(pad: string, fields: seq<Field>)

  datatype Item = Item(pre: string, doc: Doc, post: string)

  /** `pre "key" mid : aft doc post`. */
  datatype Field = Field(pre: string, key: string, mid: string, aft: string, doc: Doc, post: string)

  function LitText(v: Value): string {
    match v
    case Null => "null"
    case Bool(b) => if b then "true" else "false"
    case Num(s) => s
    case Str(s) => "\"" + s + "\""
    case _ => ""
  }

  function Printed(d: Doc): string {
    match d
    case Lit(v) => LitText(v)
    case ArrDoc(pad, items) => "[" + ItemsText(pad, items)
    case ObjDoc(pad, fields) => "{" + FieldsText(pad, fields)
  }

  function ItemText(it: Item): string {
    it.pre + (Printed(it.doc) + it.post)
  }

  /** The elements with the closing bracket. */
  function ItemsText(pad: string, its: seq<Item>): string
    decreases its
  {
    if its == [] then pad + "]"
    else ItemText(its[0]) + if |its| == 1 then "]" else "," + ItemsText(pad, its[1..])
  }

  /** A key up to where its value starts. */
  function KeyText(f: Field): string {
    f.pre + (("\"" + f.key + "\"") + (f.mid + (":" + f.aft)))
  }

  function FieldText(f: Field): string {
    KeyText(f) + (Printed(f.doc) + f.post)
  }

  /** The members with the closing bracket. */
  function FieldsText(pad: string, fs: seq<Field>): string
    decreases fs
  {
    if fs == [] then pad + "}"
    else FieldText(fs[0]) + if |fs| == 1 then "}" else "," + FieldsText(pad, fs[1..])
  }

  // ----- what can be read

  /** White space (section 2 of RFC 8259). */
  predicate Blanks(s: string) {
    forall c | c in s :: c == ' ' || c == '\t' || c == '\n' || c == '\r'
  }

  predicate Scalar(v: Value) {
    !v.Arr? && !v.Obj?
  }

  /** A text that the tokenizer reads as it stands. */
  predicate Readable(d: Doc) {
    match d
    case Lit(v) => Scalar(v) && WellFormed(v)
    case ArrDoc(pad, items) => Blanks(pad) && forall it | it in items :: ReadableItem(it)
    case ObjDoc(pad, fields) => Blanks(pad) && forall f | f in fields :: ReadableField(f)
  }

  predicate ReadableItem(it: Item) {
    Blanks(it.pre) && Readable(it.doc) && Blanks(it.post)
  }

  predicate ReadableField(f: Field) {
    Blanks(f.pre) && Units(f.key) && Blanks(f.mid) && Blanks(f.aft) && Readable(f.doc) && Blanks(f.post)
  }

  // ----- what it says

  function Meaning(d: Doc): Value {
    match d
    case Lit(v) => v
    case ArrDoc(_, items) => Arr(Meanings(items))
    case ObjDoc(_, fields) => Obj(Assign([], fields))
  }

  function Meanings(its: seq<Item>): seq<Value> {
    if its == [] then [] else [Meaning(its[0].doc)] + Meanings(its[1..])
  }

  /** The members assigned to a map one after the other. */
  function Assign(ms: seq<Member>, fs: seq<Field>): seq<Member>
    decreases fs
  {
    if fs == [] then ms else Assign(Insert(ms, fs[0].key, Meaning(fs[0].doc)), fs[1..])
  }

  // ----- the layout of the printer

  function Layout(v: Value): Doc {
    match v
    case Arr(es) => ArrDoc("", LayoutItems(es, ""))
    case Obj(ms) => ObjDoc("", LayoutFields(ms, ""))
    case _ => Lit(v)
  }

  function LayoutItems(es: seq<Value>, pre: string): (r: seq<Item>)
    ensures |r| == |es|
  {
    if es == [] then [] else [Item(pre, Layout(es[0]), "")] + LayoutItems(es[1..], " ")
  }

  function LayoutFields(ms: seq<Member>, pre: string): (r: seq<Field>)
    ensures |r| == |ms|
  {
    if ms == [] then []
    else [Field(pre, ms[0].key, "", " ", Layout(ms[0].value), "")] + LayoutFields(ms[1..], " ")
  }

  lemma {:induction false} LayoutText(v: Value)
    ensures Printed(Layout(v)) == Serialize(v)
    decreases v, 1
  {
    match v {
      case Arr(es) =>
        LayoutItemsText(es, "");
        assert "" + SerializeElems(es) == SerializeElems(es);
      case Obj(ms) =>
        LayoutFieldsText(ms, "");
        assert "" + SerializeMembers(ms) == SerializeMembers(ms);
      case _ =>
    }
  }

  lemma {:induction false} LayoutItemsText(es: seq<Value>, pre: string)
    ensures ItemsText("", LayoutItems(es, pre)) == if es == [] then SerializeElems(es) else pre + SerializeElems(es)
    decreases es, 0
  {
    hide Layout, Serialize, Printed;
    if es != [] {
      LayoutText(es[0]);
      LayoutItemsText(es[1..], " ");
      var t := Serialize(es[0]);
      assert t + "" == t;
      if |es| > 1 {
        assert "," + (" " + SerializeElems(es[1..])) == ", " + SerializeElems(es[1..]);
        Associative(pre, t, ", " + SerializeElems(es[1..]));
      } else {
        Associative(pre, t, "]");
      }
    }
  }

  lemma LayoutKeyText(m: Member, pre: string)
    ensures KeyText(Field(pre, m.key, "", " ", Layout(m.value), "")) == pre + SerializeKey(m.key)
  {
    hide Layout;
    assert "" + (":" + " ") == ": ";
  }

  lemma {:induction false} LayoutFieldsText(ms: seq<Member>, pre: string)
    ensures FieldsText("", LayoutFields(ms, pre)) ==
            if ms == [] then SerializeMembers(ms) else pre + SerializeMembers(ms)
    decreases ms, 0
  {
    hide Layout, Serialize, Printed, KeyText, SerializeKey;
    if ms != [] {
      LayoutText(ms[0].value);
      LayoutFieldsText(ms[1..], " ");
      MembersSplit(ms);
      FieldsSplit(ms, pre);
      hide LayoutFields, FieldsText, SerializeMembers;
      Regroup(pre, SerializeKey(ms[0].key), Serialize(ms[0].value), AfterFirst(ms));
    }
  }

  lemma CommaSpace(s: string)
    ensures "," + (" " + s) == ", " + s
  {
  }

  /** What the printer puts after the first member. */
  function AfterFirst(ms: seq<Member>): string
    requires ms != []
  {
    if |ms| > 1 then ", " + SerializeMembers(ms[1..]) else "}"
  }

  lemma MembersSplit(ms: seq<Member>)
    requires ms != []
    ensures SerializeMembers(ms) == SerializeKey(ms[0].key) + (Serialize(ms[0].value) + AfterFirst(ms))
  {
    hide Serialize, SerializeKey;
  }

  lemma FieldsSplit(ms: seq<Member>, pre: string)
    requires ms != []
    requires Printed(Layout(ms[0].value)) == Serialize(ms[0].value)
    requires |ms| > 1 ==> FieldsText("", LayoutFields(ms[1..], " ")) == " " + SerializeMembers(ms[1..])
    ensures FieldsText("", LayoutFields(ms, pre)) ==
            (pre + SerializeKey(ms[0].key)) + Serialize(ms[0].value) + AfterFirst(ms)
  {
    hide Layout, Serialize, Printed, KeyText, SerializeKey, SerializeMembers;
    LayoutKeyText(ms[0], pre);
    CommaSpace(SerializeMembers(ms[1..]));
    var k, t := pre + SerializeKey(ms[0].key), Serialize(ms[0].value);
    assert t + "" == t;
    var fs := LayoutFields(ms, pre);
    assert FieldText(fs[0]) == k + t;
    assert fs[1..] == LayoutFields(ms[1..], " ");
  }

  lemma Regroup(a: string, b: string, c: string, d: string)
    ensures (a + b) + c + d == a + (b + (c + d))
  {
  }

  lemma NoBlanks()
    ensures Blanks("") && Blanks(" ")
  {
  }

  lemma {:induction false} LayoutReadable(v: Value)
    requires WellFormed(v)
    ensures Readable(Layout(v))
    decreases v, 1
  {
    hide Units, Sorted, Blanks;
    NoBlanks();
    match v {
      case Arr(es) => LayoutItemsReadable(es, "");
      case Obj(ms) => LayoutFieldsReadable(ms, "");
      case _ =>
    }
  }

  lemma {:induction false} LayoutItemsReadable(es: seq<Value>, pre: string)
    requires Blanks(pre) && forall e | e in es :: WellFormed(e)
    ensures forall it | it in LayoutItems(es, pre) :: ReadableItem(it)
    decreases es, 0
  {
    hide Layout, WellFormed, Readable, Blanks;
    if es != [] {
      NoBlanks();
      LayoutReadable(es[0]);
      LayoutItemsReadable(es[1..], " ");
    }
  }

  lemma {:induction false} LayoutFieldsReadable(ms: seq<Member>, pre: string)
    requires Blanks(pre) && forall m | m in ms :: Units(m.key) && WellFormed(m.value)
    ensures forall f | f in LayoutFields(ms, pre) :: ReadableField(f)
    decreases ms, 0
  {
    hide Layout, WellFormed, Readable, Blanks, Units;
    if ms != [] {
      NoBlanks();
      assert ms[0] in ms;
      LayoutReadable(ms[0].value);
      LayoutFieldsReadable(ms[1..], " ");
    }
  }

  // ----- assignments to a map

  /** Assigning to a key above all others appends. */
  lemma {:induction false} InsertLast(ms: seq<Member>, key: string, value: Value)
    requires forall m | m in ms :: Less(m.key, key)
    ensures Insert(ms, key, value) == ms + [Member(key, value)]
  {
    if ms != [] {
      assert ms[0] in ms;
      LessAsymmetric(ms[0].key, key);
      InsertLast(ms[1..], key, value);
    }
  }

  /** Assigning to any key keeps the map in key order. */
  lemma {:induction false} InsertSorted(ms: seq<Member>, key: string, value: Value)
    requires Sorted(ms)
    ensures Sorted(Insert(ms, key, value))
  {
    if ms != [] && ms[0].key != key {
      if Less(key, ms[0].key) {
        forall m | m in ms ensures Less(key, m.key) {
          if m != ms[0] {
            LessTransitive(key, ms[0].key, m.key);
          }
        }
      } else {
        LessTotal(key, ms[0].key);
        InsertSorted(ms[1..], key, value);
        var r := Insert(ms[1..], key, value);
        forall m | m in r ensures Less(ms[0].key, m.key) {
        }
      }
    }
  }

  lemma SortedAppend(acc: seq<Member>, ms: seq<Member>)
    requires Sorted(acc + ms) && ms != []
    ensures forall m | m in acc :: Less(m.key, ms[0].key)
    ensures Sorted(acc + [ms[0]] + ms[1..]) && acc + ms == acc + [ms[0]] + ms[1..]
  {
    hide Less;
    assert acc + ms == acc + [ms[0]] + ms[1..];
    assert (acc + ms)[|acc|] == ms[0];
    forall j | 0 <= j < |acc| ensures Less(acc[j].key, ms[0].key) {
      assert (acc + ms)[j] == acc[j];
    }
  }

  lemma {:induction false} LayoutMeaning(v: Value)
    requires WellFormed(v)
    ensures Meaning(Layout(v)) == v
    decreases v, 1
  {
    hide Units, Sorted;
    match v {
      case Arr(es) => LayoutMeanings(es, "");
      case Obj(ms) =>
        assert [] + ms == ms;
        LayoutAssign([], ms, "");
      case _ =>
    }
  }

  lemma {:induction false} LayoutMeanings(es: seq<Value>, pre: string)
    requires forall e | e in es :: WellFormed(e)
    ensures Meanings(LayoutItems(es, pre)) == es
    decreases es, 0
  {
    hide Layout, WellFormed, Meaning;
    if es != [] {
      LayoutMeaning(es[0]);
      LayoutMeanings(es[1..], " ");
    }
  }

  lemma {:induction false} LayoutAssign(acc: seq<Member>, ms: seq<Member>, pre: string)
    requires Sorted(acc + ms) && forall m | m in ms :: WellFormed(m.value)
    ensures Assign(acc, LayoutFields(ms, pre)) == acc + ms
    decreases ms, 0
  {
    hide Layout, WellFormed, Meaning, Sorted, Insert, Less;
    if ms == [] {
      assert acc + ms == acc;
    } else {
      assert ms[0] in ms;
      LayoutMeaning(ms[0].value);
      SortedAppend(acc, ms);
      InsertLast(acc, ms[0].key, ms[0].value);
      LayoutAssign(acc + [ms[0]], ms[1..], " ");
    }
  }
}
