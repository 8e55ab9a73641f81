/** JSON texts by the grammar of RFC 8259, and the codec against it: what the printer makes
    is a JSON text of the value, and every JSON text is read as the value it stands for. */
module JsonStandard {
  import opened Wrappers
  import opened Texts
  import opened Jsmn
  import opened JsonValue
  import opened JsonText
  import opened JsonPayload
  import N = Numbers

  // ----- strings and numbers

  predicate HexDigit(c: char) {
    '0' <= c <= '9' || 'a' <= c <= 'f' || 'A' <= c <= 'F'
  }

  /** The inside of a string (section 7 of RFC 8259). */
  predicate JString(s: string) {
    s == [] ||
    if s[0] == '\\' then
      |s| >= 2 &&
      if s[1] in "\"\\/bfnrt" then JString(s[2..])
      else s[1] == 'u' && |s| >= 6 && (forall k | 2 <= k < 6 :: HexDigit(s[k])) && JString(s[6..])
    else
      ' ' <= s[0] && s[0] != '\"' && JString(s[1..])
  }

  predicate Digits(s: string) {
    s != "" && forall c | c in s :: '0' <= c <= '9'
  }

  predicate JInt(s: string) {
    s == "0" || (Digits(s) && s[0] != '0')
  }

  predicate JFrac(s: string) {
    s == "" || (s[0] == '.' && Digits(s[1..]))
  }

  predicate JExp(s: string) {
    s == "" ||
    ((s[0] == 'e' || s[0] == 'E') &&
     (Digits(s[1..]) || (|s| > 1 && (s[1] == '+' || s[1] == '-') && Digits(s[2..]))))
  }

  predicate JSign(s: string) {
    s == "" || s == "-"
  }

  /** A number (section 6 of RFC 8259). */
  ghost predicate JNumber(s: string) {
    exists sign, whole, frac, exp ::
      JSign(sign) && JInt(whole) && JFrac(frac) && JExp(exp) && s == sign + whole + frac + exp
  }

  // ----- texts and values

  /** Numbers, strings and keys are those of RFC 8259, and keys are in order. */
  ghost predicate Standard(v: Value) {
    match v
    case Null => true
    case Bool(_) => true
    case Num(s) => JNumber(s)
    case Str(s) => JString(s)
    case Arr(es) => forall e | e in es :: Standard(e)
    case Obj(ms) => Sorted(ms) && forall m | m in ms :: JString(m.key) && Standard(m.value)
  }

  /** A text by the grammar, with white space where it allows it. */
  ghost predicate Grammatical(d: Doc) {
    match d
    case Lit(v) => Scalar(v) && Standard(v)
    case ArrDoc(pad, items) =>
      Blanks(pad) && forall it | it in items :: Blanks(it.pre) && Grammatical(it.doc) && Blanks(it.post)
    case ObjDoc(pad, fields) =>
      Blanks(pad) && forall f | f in fields :: GrammaticalField(f)
  }

  ghost predicate GrammaticalField(f: Field) {
    && Blanks(f.pre) && JString(f.key) && Blanks(f.mid) && Blanks(f.aft)
    && Grammatical(f.doc) && Blanks(f.post)
  }

  /** `text` is a JSON text that stands for `v`. */
  ghost predicate Json(text: string, v: Value) {
    exists pre, d, post ::
      Blanks(pre) && Grammatical(d) && Blanks(post) && text == pre + (Printed(d) + post) && Meaning(d) == v
  }

  // ----- the standard's texts are ones that the tokenizer reads

  lemma {:induction false} StringsRead(s: string)
    requires JString(s)
    ensures Units(s)
    decreases |s|
  {
    if s != [] {
      if s[0] != '\\' {
        StringsRead(s[1..]);
      } else if s[1] in "\"\\/bfnrt" {
        StringsRead(s[2..]);
      } else {
        StringsRead(s[6..]);
      }
    }
  }

  predicate NumberChar(c: char) {
    '0' <= c <= '9' || c == '-' || c == '+' || c == '.' || c == 'e' || c == 'E'
  }

  predicate NumberChars(s: string) {
    forall c | c in s :: NumberChar(c)
  }

  lemma HeadTail(s: string)
    requires s != "" && NumberChar(s[0]) && NumberChars(s[1..])
    ensures NumberChars(s)
  {
    assert s == [s[0]] + s[1..];
  }

  lemma PartChars(s: string)
    requires JSign(s) || JInt(s) || JFrac(s) || JExp(s)
    ensures NumberChars(s)
  {
    if s != "" {
      if JFrac(s) {
        HeadTail(s);
      } else if JExp(s) && !Digits(s[1..]) {
        assert s[1..][1..] == s[2..];
        HeadTail(s[1..]);
        HeadTail(s);
      } else if JExp(s) {
        HeadTail(s);
      }
    }
  }

  lemma NumbersRead(s: string)
    requires JNumber(s)
    ensures NumText(s)
  {
    var sign, whole, frac, exp :|
      JSign(sign) && JInt(whole) && JFrac(frac) && JExp(exp) && s == sign + whole + frac + exp;
    PartChars(sign);
    PartChars(whole);
    PartChars(frac);
    PartChars(exp);
    assert s[0] == if sign == "" then whole[0] else '-';
    assert whole[0] in whole;
    assert forall c | c in s :: NumberChar(c);
  }

  lemma {:induction false} StandardRead(v: Value)
    requires Standard(v)
    ensures WellFormed(v)
  {
    hide Units, NumText, JString, JNumber, Sorted;
    match v {
      case Num(s) => NumbersRead(s);
      case Str(s) => StringsRead(s);
      case Arr(es) =>
        forall e | e in es ensures WellFormed(e) {
          StandardRead(e);
        }
      case Obj(ms) =>
        forall m | m in ms ensures Units(m.key) && WellFormed(m.value) {
          StringsRead(m.key);
          StandardRead(m.value);
        }
      case _ =>
    }
  }

  lemma {:induction false} GrammaticalRead(d: Doc)
    requires Grammatical(d)
    ensures Readable(d)
  {
    hide Blanks, Units, JString, Standard, WellFormed;
    match d {
      case Lit(v) => StandardRead(v);
      case ArrDoc(_, its) =>
        forall it | it in its ensures ReadableItem(it) {
          GrammaticalRead(it.doc);
        }
      case ObjDoc(_, fs) =>
        forall f | f in fs ensures ReadableField(f) {
          assert GrammaticalField(f);
          StringsRead(f.key);
          GrammaticalRead(f.doc);
        }
    }
  }

  /** Every JSON text is read as the value it stands for, whatever its white space and the
      order of its members. */
  lemma JsonIsRead(text: string, v: Value)
    requires Json(text, v)
    ensures Deserialize(text) == Some(v)
  {
    hide Blanks, Grammatical, Printed, Meaning, Deserialize, Readable;
    var pre, d, post :|
      Blanks(pre) && Grammatical(d) && Blanks(post) && text == pre + (Printed(d) + post) && Meaning(d) == v;
    GrammaticalRead(d);
    TextReadsBack(pre, d, post);
  }

  /** A text stands for at most one value. */
  lemma JsonUnique(text: string, v: Value, w: Value)
    requires Json(text, v) && Json(text, w)
    ensures v == w
  {
    hide *;
    JsonIsRead(text, v);
    JsonIsRead(text, w);
  }

  // ----- what the printer makes is a JSON text

  lemma {:induction false} LayoutGrammatical(v: Value)
    requires Standard(v)
    ensures Grammatical(Layout(v))
    decreases v, 1
  {
    hide Blanks, JString, JNumber, Sorted;
    NoBlanks();
    match v {
      case Arr(es) => ItemsGrammatical(es, "");
      case Obj(ms) => FieldsGrammatical(ms, "");
      case _ =>
    }
  }

  lemma {:induction false} ItemsGrammatical(es: seq<Value>, pre: string)
    requires Blanks(pre) && forall e | e in es :: Standard(e)
    ensures forall it | it in LayoutItems(es, pre) :: Blanks(it.pre) && Grammatical(it.doc) && Blanks(it.post)
    decreases es, 0
  {
    hide Layout, Standard, Grammatical, Blanks;
    if es != [] {
      NoBlanks();
      LayoutGrammatical(es[0]);
      ItemsGrammatical(es[1..], " ");
    }
  }

  lemma {:induction false} FieldsGrammatical(ms: seq<Member>, pre: string)
    requires Blanks(pre) && forall m | m in ms :: JString(m.key) && Standard(m.value)
    ensures forall f | f in LayoutFields(ms, pre) :: GrammaticalField(f)
    decreases ms, 0
  {
    hide Layout, Standard, Grammatical, Blanks, JString;
    if ms != [] {
      NoBlanks();
      assert ms[0] in ms;
      LayoutGrammatical(ms[0].value);
      FieldsGrammatical(ms[1..], " ");
    }
  }

  lemma {:induction false} MeaningStandard(d: Doc)
    requires Grammatical(d)
    ensures Standard(Meaning(d))
    decreases d, 1
  {
    hide Blanks, JString, JNumber, Assign, Meanings;
    match d {
      case ArrDoc(_, its) => MeaningsStandard(its);
      case ObjDoc(_, fs) =>
        hide Standard;
        AssignStandard([], fs);
        StandardMembers(Assign([], fs));
      case Lit(_) =>
    }
  }

  ghost predicate StandardMap(ms: seq<Member>) {
    Sorted(ms) && forall m | m in ms :: JString(m.key) && Standard(m.value)
  }

  lemma StandardMembers(ms: seq<Member>)
    requires StandardMap(ms)
    ensures Standard(Obj(ms))
  {
  }

  lemma {:induction false} MeaningsStandard(its: seq<Item>)
    requires forall it | it in its :: Grammatical(it.doc)
    ensures forall e | e in Meanings(its) :: Standard(e)
    decreases its, 0
  {
    hide Standard, Grammatical, Meaning;
    if its != [] {
      MeaningStandard(its[0].doc);
      MeaningsStandard(its[1..]);
    }
  }

  lemma {:induction false} AssignStandard(ms: seq<Member>, fs: seq<Field>)
    requires StandardMap(ms) && forall f | f in fs :: GrammaticalField(f)
    ensures StandardMap(Assign(ms, fs))
    decreases fs, 0
  {
    hide Standard, Grammatical, Meaning, JString, Blanks, Sorted, Insert;
    if fs != [] {
      var f := fs[0];
      assert f in fs && GrammaticalField(f);
      MeaningStandard(f.doc);
      InsertSorted(ms, f.key, Meaning(f.doc));
      AssignStandard(Insert(ms, f.key, Meaning(f.doc)), fs[1..]);
    }
  }

  /** The printed text of a value is a JSON text that stands for it if and only if its
      numbers and strings are those of RFC 8259 and its keys are in order. */
  lemma PrintedIsJson(v: Value)
    ensures Json(Serialize(v), v) <==> Standard(v)
  {
    hide Standard, Serialize, Layout, Printed, Meaning, Grammatical, Blanks;
    if Standard(v) {
      LayoutGrammatical(v);
      StandardRead(v);
      LayoutMeaning(v);
      LayoutText(v);
      NoBlanks();
      assert Serialize(v) == "" + (Printed(Layout(v)) + "");
    }
    if Json(Serialize(v), v) {
      var pre, d, post :|
        Blanks(pre) && Grammatical(d) && Blanks(post) && Serialize(v) == pre + (Printed(d) + post) && Meaning(d) == v;
      MeaningStandard(d);
    }
  }

  // ----- what the members of an object say

  /** The value of the last member with a key. */
  function LastValue(fs: seq<Field>, key: string): Option<Value> {
    if fs == [] then None
    else
      var f := fs[|fs| - 1];
      if f.key == key then Some(Meaning(f.doc)) else LastValue(fs[..|fs| - 1], key)
  }

  lemma {:induction false} InsertMember(ms: seq<Member>, key: string, value: Value, m: Member)
    requires Sorted(ms)
    ensures m in Insert(ms, key, value) <==> if m.key == key then m.value == value else m in ms
    decreases |ms|
  {
    hide Less;
    if ms != [] {
      assert ms == [ms[0]] + ms[1..];
      if ms[0].key != key && !Less(key, ms[0].key) {
        InsertMember(ms[1..], key, value, m);
      } else {
        KeyOnce(ms, key, m);
      }
    }
  }

  /** With the key first, or below the first, it occurs nowhere else. */
  lemma KeyOnce(ms: seq<Member>, key: string, m: Member)
    requires ms != [] && Sorted(ms) && (ms[0].key == key || Less(key, ms[0].key))
    ensures m in ms[1..] ==> m.key != key
    ensures Less(key, ms[0].key) ==> m in ms ==> m.key != key
  {
    if m in ms {
      if m in ms[1..] {
        assert Less(ms[0].key, m.key);
        LessAsymmetric(ms[0].key, m.key);
        if Less(key, ms[0].key) {
          LessTransitive(key, ms[0].key, m.key);
        }
      }
      LessAsymmetric(key, m.key);
    }
  }

  lemma {:induction false} AssignLast(ms: seq<Member>, fs: seq<Field>)
    requires fs != []
    ensures var n := |fs| - 1;
            Assign(ms, fs) == Insert(Assign(ms, fs[..n]), fs[n].key, Meaning(fs[n].doc))
    decreases |fs|
  {
    hide Insert, Meaning;
    if |fs| > 1 {
      var n := |fs| - 1;
      assert fs[1..][..n - 1] == fs[..n][1..] && fs[..n][0] == fs[0];
      AssignLast(Insert(ms, fs[0].key, Meaning(fs[0].doc)), fs[1..]);
    }
  }

  /** An object stands for its members in key order, the last one of each key. */
  lemma {:induction false} MembersInOrder(fs: seq<Field>, key: string, value: Value)
    ensures Sorted(Assign([], fs))
    ensures Member(key, value) in Assign([], fs) <==> LastValue(fs, key) == Some(value)
    decreases |fs|
  {
    hide Insert, Meaning, Sorted;
    if fs == [] {
      assert Sorted([]) by { NoMembersSorted(); }
    } else {
      var n := |fs| - 1;
      MembersInOrder(fs[..n], key, value);
      AssignLast([], fs);
      InsertSorted(Assign([], fs[..n]), fs[n].key, Meaning(fs[n].doc));
      InsertMember(Assign([], fs[..n]), fs[n].key, Meaning(fs[n].doc), Member(key, value));
    }
  }

  lemma NoMembersSorted()
    ensures Sorted([])
  {
  }

  // ----- integers

  lemma {:induction false} DecimalDigits(n: nat)
    ensures JInt(N.Decimal(n))
    ensures n > 0 ==> N.Decimal(n)[0] != '0'
  {
    if n >= 10 {
      DecimalDigits(n / 10);
      var s := N.Decimal(n / 10);
      assert N.Decimal(n)[0] == s[0];
    }
  }

  /** Every printed integer is a number of RFC 8259. */
  lemma IntegersAreNumbers(n: int)
    ensures JNumber(N.DecimalInt(n))
  {
    var whole := N.Decimal(if n < 0 then -n else n);
    DecimalDigits(if n < 0 then -n else n);
    var sign := if n < 0 then "-" else "";
    assert JSign(sign) && JFrac("") && JExp("");
    assert N.DecimalInt(n) == sign + whole + "" + "";
  }
}
