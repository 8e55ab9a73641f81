/** `Payload::deserialize`: the retry loop around the tokenizer and the builder, and the
    laws of the codec as a whole. */
module JsonPayload {
  import opened Wrappers
  import opened Jsmn
  import opened JsmnInvariants
  import opened JsmnParser
  import opened JsonValue
  import opened JsonText
  import opened JsonCodec

  // ----- tokens back to the value

  lemma TextOfQuoted(js: string, off: nat, s: string)
    requires At(js, off, "\"" + s + "\"")
    ensures js[off + 1..off + 1 + |s|] == s
  {
    AtSplit(js, off, "\"" + s, "\"");
    AtSplit(js, off, "\"", s);
  }

  lemma LeafOfText(js: string, off: nat, v: Value, t: Token)
    requires Scalar(v) && WellFormed(v) && !v.Str? && At(js, off, LitText(v))
    requires t.start == off && t.end == off + |LitText(v)|
    ensures Leaf(js, t) == v
  {
    AtChar(js, off, LitText(v));
  }

  /** From the pre-order tokens of a text the builder makes what the text says and uses up
      exactly those tokens. */
  lemma {:induction false} BuildTokens(tok: seq<Token>, js: string, d: Doc, off: nat, base: nat, parent: int,
                                       end: nat)
    requires Readable(d) && At(js, off, Printed(d)) && Spans(tok, js)
    requires At(tok, base, Tokens(d, off, base, parent))
    requires base + |Tokens(d, off, base, parent)| <= end <= |tok|
    ensures Build(tok, base, end, js) == Built(Meaning(d), base + |Tokens(d, off, base, parent)| - 1)
    decreases d, 1
  {
    hide Spans, Units, NumText, At, ItemsText, FieldsText, ItemTokens, FieldTokens, BuildElems, BuildMembers;
    match d {
      case ArrDoc(_, _) =>
        BuildArrayTokens(tok, js, d, off, base, parent, end);
      case ObjDoc(_, _) =>
        BuildObjectTokens(tok, js, d, off, base, parent, end);
      case Lit(v) =>
        AtChar(tok, base, Tokens(d, off, base, parent));
        if v.Str? {
          TextOfQuoted(js, off, v.text);
        } else {
          LeafOfText(js, off, v, tok[base]);
        }
    }
  }

  lemma {:induction false} BuildArrayTokens(tok: seq<Token>, js: string, d: Doc, off: nat, base: nat, parent: int,
                                            end: nat)
    requires d.ArrDoc? && Readable(d) && At(js, off, Printed(d)) && Spans(tok, js)
    requires At(tok, base, Tokens(d, off, base, parent))
    requires base + |Tokens(d, off, base, parent)| <= end <= |tok|
    ensures Build(tok, base, end, js) == Built(Meaning(d), base + |Tokens(d, off, base, parent)| - 1)
    decreases d, 0
  {
    hide Spans, At, ItemsText, ItemTokens, BuildElems, ReadableItem, Blanks, Meanings;
    var its := d.items;
    AtChar(tok, base, Tokens(d, off, base, parent));
    AtSplit(js, off, "[", ItemsText(d.pad, its));
    AtSplit(tok, base, [tok[base]], ItemTokens(its, off + 1, base + 1, base));
    BuildItemTokens(tok, js, d.pad, its, off + 1, base, base, end, []);
    assert [] + Meanings(its) == Meanings(its);
  }

  lemma {:induction false} BuildObjectTokens(tok: seq<Token>, js: string, d: Doc, off: nat, base: nat, parent: int,
                                             end: nat)
    requires d.ObjDoc? && Readable(d) && At(js, off, Printed(d)) && Spans(tok, js)
    requires At(tok, base, Tokens(d, off, base, parent))
    requires base + |Tokens(d, off, base, parent)| <= end <= |tok|
    ensures Build(tok, base, end, js) == Built(Meaning(d), base + |Tokens(d, off, base, parent)| - 1)
    decreases d, 0
  {
    hide Spans, At, FieldsText, FieldTokens, BuildMembers, ReadableField, Blanks, Assign;
    var fs := d.fields;
    AtChar(tok, base, Tokens(d, off, base, parent));
    AtSplit(js, off, "{", FieldsText(d.pad, fs));
    AtSplit(tok, base, [tok[base]], FieldTokens(fs, off + 1, base + 1, base));
    BuildFieldTokens(tok, js, d.pad, fs, off + 1, base, base, end, []);
  }

  lemma BuildElemsStep(tok: seq<Token>, i: nat, end: nat, js: string, n: int, acc: seq<Value>)
    requires i + 1 < end <= |tok| && Spans(tok, js) && n > 0 && Build(tok, i + 1, end, js).Built?
    ensures var b := Build(tok, i + 1, end, js);
            BuildElems(tok, i, end, js, n, acc) == BuildElems(tok, b.next, end, js, n - 1, acc + [b.value])
  {
  }

  lemma BuildMembersStep(tok: seq<Token>, i: nat, end: nat, js: string, n: int, acc: seq<Member>)
    requires i + 2 < end <= |tok| && Spans(tok, js) && n > 0 && tok[i + 1].kind == String
    requires Build(tok, i + 2, end, js).Built?
    ensures var b := Build(tok, i + 2, end, js);
            BuildMembers(tok, i, end, js, n, acc) ==
            BuildMembers(tok, b.next, end, js, n - 1, Insert(acc, Text(js, tok[i + 1]), b.value))
  {
  }

  lemma BuildElemsNone(tok: seq<Token>, i: nat, end: nat, js: string, acc: seq<Value>)
    requires i < |tok| && end <= |tok| && Spans(tok, js)
    ensures BuildElems(tok, i, end, js, 0, acc) == Built(acc, i)
  {
  }

  lemma BuildMembersNone(tok: seq<Token>, i: nat, end: nat, js: string, acc: seq<Member>)
    requires i < |tok| && end <= |tok| && Spans(tok, js)
    ensures BuildMembers(tok, i, end, js, 0, acc) == Built(acc, i)
  {
  }

  lemma ItemTokensCons(its: seq<Item>, off: nat, base: nat, parent: int)
    requires its != []
    ensures var h := Tokens(its[0].doc, off + |its[0].pre|, base, parent);
            ItemTokens(its, off, base, parent) ==
            h + ItemTokens(its[1..], off + |ItemText(its[0])| + 1, base + |h|, parent)
  {
  }

  lemma MeaningsCons(acc: seq<Value>, its: seq<Item>)
    requires its != []
    ensures acc + Meanings(its) == acc + [Meaning(its[0].doc)] + Meanings(its[1..])
  {
    hide Meaning;
  }

  lemma {:induction false} BuildItemTokens(tok: seq<Token>, js: string, pad: string, its: seq<Item>, off: nat, i: nat,
                                           parent: int, end: nat, acc: seq<Value>)
    requires (forall it | it in its :: ReadableItem(it)) && At(js, off, ItemsText(pad, its)) && Spans(tok, js)
    requires At(tok, i + 1, ItemTokens(its, off, i + 1, parent)) && i < |tok|
    requires i + 1 + |ItemTokens(its, off, i + 1, parent)| <= end <= |tok|
    ensures BuildElems(tok, i, end, js, |its|, acc) ==
            Built(acc + Meanings(its), i + |ItemTokens(its, off, i + 1, parent)|)
    decreases its, 1
  {
    hide At, ItemText, ItemsText, Tokens, Build, Spans, Readable, Blanks, Meaning;
    if its == [] {
      assert acc + Meanings(its) == acc;
      BuildElemsNone(tok, i, end, js, acc);
    } else {
      hide BuildElems, Meanings, ItemTokens;
      var h := Tokens(its[0].doc, off + |its[0].pre|, i + 1, parent);
      var off' := off + |ItemText(its[0])| + 1;
      ItemTokensCons(its, off, i + 1, parent);
      AtSplit(tok, i + 1, h, ItemTokens(its[1..], off', i + 1 + |h|, parent));
      ItemAt(js, off, pad, its);
      assert its[0] in its;
      ItemDocAt(js, off, its[0]);
      BuildTokens(tok, js, its[0].doc, off + |its[0].pre|, i + 1, parent, end);
      BuildElemsStep(tok, i, end, js, |its|, acc);
      MeaningsCons(acc, its);
      var acc' := acc + [Meaning(its[0].doc)];
      if |its| == 1 {
        NoItems(its[1..], off', i + 1 + |h|, parent, acc');
        BuildElemsNone(tok, i + |h|, end, js, acc');
      } else {
        BuildItemTokens(tok, js, pad, its[1..], off', i + |h|, parent, end, acc');
      }
    }
  }

  lemma NoItems(its: seq<Item>, off: nat, base: nat, parent: int, acc: seq<Value>)
    requires its == []
    ensures ItemTokens(its, off, base, parent) == [] && acc + Meanings(its) == acc
  {
  }

  lemma PaddedText(js: string, p: nat, pre: string, d: Doc, post: string)
    requires At(js, p, pre + (Printed(d) + post))
    ensures At(js, p + |pre|, Printed(d))
  {
    hide At, Printed;
    AtSplit(js, p, pre, Printed(d) + post);
    AtSplit(js, p + |pre|, Printed(d), post);
  }

  lemma ItemDocAt(js: string, p: nat, it: Item)
    requires At(js, p, ItemText(it))
    ensures At(js, p + |it.pre|, Printed(it.doc))
  {
    hide At, Printed;
    PaddedText(js, p, it.pre, it.doc, it.post);
  }

  lemma {:induction false} BuildHead(tok: seq<Token>, js: string, f: Field, off: nat, i: nat, parent: int, end: nat)
    requires ReadableField(f) && Spans(tok, js) && At(js, off, FieldText(f))
    requires At(tok, i + 1, FieldHead(f, off, i + 1, parent))
    requires i + 1 + |FieldHead(f, off, i + 1, parent)| <= end <= |tok|
    ensures tok[i + 1].kind == String && Text(js, tok[i + 1]) == f.key
    ensures Build(tok, i + 2, end, js) == Built(Meaning(f.doc), i + |FieldHead(f, off, i + 1, parent)|)
    decreases f
  {
    hide At, Printed, Tokens, Build, Readable, KeyText, Units, Blanks;
    var h := FieldHead(f, off, i + 1, parent);
    AtChar(tok, i + 1, h);
    AtSplit(js, off, KeyText(f), Printed(f.doc) + f.post);
    PaddedText(js, off, KeyText(f), f.doc, f.post);
    KeyAt(js, off, f);
    TextOfQuoted(js, off + |f.pre|, f.key);
    AtSplit(tok, i + 1, [h[0]], Tokens(f.doc, off + |KeyText(f)|, i + 2, i + 1));
    BuildTokens(tok, js, f.doc, off + |KeyText(f)|, i + 2, i + 1, end);
  }

  lemma FieldTokensCons(fs: seq<Field>, off: nat, base: nat, parent: int)
    requires fs != []
    ensures var h := FieldHead(fs[0], off, base, parent);
            FieldTokens(fs, off, base, parent) ==
            h + FieldTokens(fs[1..], off + |FieldText(fs[0])| + 1, base + |h|, parent)
  {
  }

  lemma AssignCons(acc: seq<Member>, fs: seq<Field>)
    requires fs != []
    ensures Assign(acc, fs) == Assign(Insert(acc, fs[0].key, Meaning(fs[0].doc)), fs[1..])
  {
  }

  lemma {:induction false} BuildFieldTokens(tok: seq<Token>, js: string, pad: string, fs: seq<Field>, off: nat, i: nat,
                                            parent: int, end: nat, acc: seq<Member>)
    requires (forall f | f in fs :: ReadableField(f)) && At(js, off, FieldsText(pad, fs)) && Spans(tok, js)
    requires At(tok, i + 1, FieldTokens(fs, off, i + 1, parent)) && i < |tok|
    requires i + 1 + |FieldTokens(fs, off, i + 1, parent)| <= end <= |tok|
    ensures BuildMembers(tok, i, end, js, |fs|, acc) ==
            Built(Assign(acc, fs), i + |FieldTokens(fs, off, i + 1, parent)|)
    decreases fs, 1
  {
    hide At, FieldText, FieldsText, FieldHead, Build, Spans, ReadableField, Meaning, Insert, Text;
    if fs == [] {
      BuildMembersNone(tok, i, end, js, acc);
    } else {
      hide BuildMembers, Assign, FieldTokens;
      var f, h := fs[0], FieldHead(fs[0], off, i + 1, parent);
      var off' := off + |FieldText(f)| + 1;
      assert f in fs;
      FieldTokensCons(fs, off, i + 1, parent);
      AtSplit(tok, i + 1, h, FieldTokens(fs[1..], off', i + 1 + |h|, parent));
      FieldAt(js, off, pad, fs);
      BuildHead(tok, js, f, off, i, parent, end);
      BuildMembersStep(tok, i, end, js, |fs|, acc);
      AssignCons(acc, fs);
      var acc' := Insert(acc, f.key, Meaning(f.doc));
      if |fs| == 1 {
        NoFields(fs[1..], off', i + 1 + |h|, parent, acc');
        BuildMembersNone(tok, i + |h|, end, js, acc');
      } else {
        BuildFieldTokens(tok, js, pad, fs[1..], off', i + |h|, parent, end, acc');
      }
    }
  }

  lemma NoFields(fs: seq<Field>, off: nat, base: nat, parent: int, acc: seq<Member>)
    requires fs == []
    ensures FieldTokens(fs, off, base, parent) == [] && Assign(acc, fs) == acc
  {
  }

  // ----- what the builder looks at and what it makes

  lemma SliceTail(a: seq<Token>, b: seq<Token>, i: nat, j: nat, end: nat)
    requires i <= j <= end <= |a| && end <= |b| && a[i..end] == b[i..end]
    ensures a[j..end] == b[j..end]
  {
    assert a[j..end] == a[i..end][j - i..] && b[j..end] == b[i..end][j - i..];
  }

  /** The builder started at `i` looks at the tokens from `i` to `end` only. */
  lemma {:induction false} BuildLocal(a: seq<Token>, b: seq<Token>, i: nat, end: nat, js: string)
    requires i < end <= |a| && end <= |b| && a[i..end] == b[i..end] && Spans(a, js) && Spans(b, js)
    ensures Build(a, i, end, js) == Build(b, i, end, js)
    decreases end - i, 1
  {
    assert a[i] == a[i..end][0] == b[i];
    if a[i].kind == Array {
      BuildElemsLocal(a, b, i, end, js, a[i].size, []);
    } else if a[i].kind == Object {
      BuildMembersLocal(a, b, i, end, js, a[i].size, []);
    }
  }

  lemma {:induction false} BuildElemsLocal(a: seq<Token>, b: seq<Token>, i: nat, end: nat, js: string, n: int,
                                           acc: seq<Value>)
    requires i < end <= |a| && end <= |b| && a[i..end] == b[i..end] && Spans(a, js) && Spans(b, js)
    ensures BuildElems(a, i, end, js, n, acc) == BuildElems(b, i, end, js, n, acc)
    decreases end - i, 0
  {
    hide Build, Spans;
    if n > 0 && i + 1 < end {
      SliceTail(a, b, i, i + 1, end);
      BuildLocal(a, b, i + 1, end, js);
      var r := Build(a, i + 1, end, js);
      if r.Built? {
        SliceTail(a, b, i, r.next, end);
        BuildElemsLocal(a, b, r.next, end, js, n - 1, acc + [r.value]);
      }
    }
  }

  lemma {:induction false} BuildMembersLocal(a: seq<Token>, b: seq<Token>, i: nat, end: nat, js: string, n: int,
                                             acc: seq<Member>)
    requires i < end <= |a| && end <= |b| && a[i..end] == b[i..end] && Spans(a, js) && Spans(b, js)
    ensures BuildMembers(a, i, end, js, n, acc) == BuildMembers(b, i, end, js, n, acc)
    decreases end - i, 0
  {
    hide Build, Insert;
    if n > 0 && i + 2 < end {
      assert a[i + 1] == a[i..end][1] == b[i + 1];
      SliceTail(a, b, i, i + 2, end);
      BuildLocal(a, b, i + 2, end, js);
      var r := Build(a, i + 2, end, js);
      if r.Built? {
        SliceTail(a, b, i, r.next, end);
        BuildMembersLocal(a, b, r.next, end, js, n - 1, Insert(acc, Text(js, a[i + 1]), r.value));
      }
    }
  }

  /** Tokens as a finished run leaves them. */
  predicate Sound(tok: seq<Token>, js: string) {
    forall k | 0 <= k < |tok| :: Within(js, tok[k]) && Worded(js, tok[k])
  }

  /** Whatever the builder makes of sound tokens is well formed. */
  lemma {:induction false} BuildWellFormed(tok: seq<Token>, i: nat, end: nat, js: string)
    requires i < |tok| && end <= |tok| && Sound(tok, js)
    ensures var r := Build(tok, i, end, js); r.Built? ==> WellFormed(r.value)
    decreases |tok| - i, 1
  {
    hide Units;
    assert Within(js, tok[i]) && Worded(js, tok[i]);
    if tok[i].kind == Array {
      BuildElemsWellFormed(tok, i, end, js, tok[i].size, []);
    } else if tok[i].kind == Object {
      BuildMembersWellFormed(tok, i, end, js, tok[i].size, []);
    }
  }

  lemma {:induction false} BuildElemsWellFormed(tok: seq<Token>, i: nat, end: nat, js: string, n: int, acc: seq<Value>)
    requires i < |tok| && end <= |tok| && Sound(tok, js) && forall e | e in acc :: WellFormed(e)
    ensures var r := BuildElems(tok, i, end, js, n, acc); r.Built? ==> forall e | e in r.value :: WellFormed(e)
    decreases |tok| - i, 0
  {
    hide Build, WellFormed, Worded;
    if n > 0 && i + 1 < end {
      BuildWellFormed(tok, i + 1, end, js);
      var r := Build(tok, i + 1, end, js);
      if r.Built? {
        BuildElemsWellFormed(tok, r.next, end, js, n - 1, acc + [r.value]);
      }
    }
  }

  predicate MapWellFormed(ms: seq<Member>) {
    Sorted(ms) && forall m | m in ms :: Units(m.key) && WellFormed(m.value)
  }

  lemma InsertWellFormed(ms: seq<Member>, key: string, value: Value)
    requires MapWellFormed(ms) && Units(key) && WellFormed(value)
    ensures MapWellFormed(Insert(ms, key, value))
  {
    hide Insert, Sorted, Units, WellFormed;
    InsertSorted(ms, key, value);
  }

  lemma {:induction false} BuildMembersWellFormed(tok: seq<Token>, i: nat, end: nat, js: string, n: int,
                                                  acc: seq<Member>)
    requires i < |tok| && end <= |tok| && Sound(tok, js) && MapWellFormed(acc)
    ensures var r := BuildMembers(tok, i, end, js, n, acc); r.Built? ==> MapWellFormed(r.value)
    decreases |tok| - i, 0
  {
    hide Build, WellFormed, Units, Insert, MapWellFormed;
    if n > 0 && i + 2 < end && tok[i + 1].kind == String {
      BuildWellFormed(tok, i + 2, end, js);
      var r := Build(tok, i + 2, end, js);
      if r.Built? {
        assert Worded(js, tok[i + 1]);
        InsertWellFormed(acc, Text(js, tok[i + 1]), r.value);
        BuildMembersWellFormed(tok, r.next, end, js, n - 1, Insert(acc, Text(js, tok[i + 1]), r.value));
      }
    }
  }

  // ----- Payload::deserialize

  /** The value of a text, None for a ValueException: one run with a pool of a token per
      byte and the builder.  No token at all leaves the builder with a blank one. */
  function Deserialize(js: string): Option<Value> {
    match Run(js, |js|, INIT)
    case Bad(_) => None
    case Good(toks) =>
      if toks == [] then None
      else
        ParsedSpans(js, |js|);
        match Build(toks, 0, |toks|, js)
        case Thrown => None
        case Built(v, _) => Some(v)
  }

  /** Only well-formed values come out, whatever the text. */
  lemma DeserializedIsWellFormed(js: string)
    ensures Deserialize(js).Some? ==> WellFormed(Deserialize(js).value)
  {
    hide Run, Build, WellFormed;
    ParsedSpans(js, |js|);
    var r := Run(js, |js|, INIT);
    if r.Good? && r.toks != [] {
      BuildWellFormed(r.toks, 0, |r.toks|, js);
    }
  }

  /** A text of any layout, with white space around it, is read as what it says. */
  lemma TextReadsBack(pre: string, d: Doc, post: string)
    requires Blanks(pre) && Readable(d) && Blanks(post)
    ensures Deserialize(pre + (Printed(d) + post)) == Some(Meaning(d))
  {
    hide Run, Build, Readable, Printed, Tokens, Blanks, Meaning;
    var js := pre + (Printed(d) + post);
    var toks := Tokens(d, |pre|, 0, -1);
    TokensOfText(pre, d, post, |js|);
    ParsedSpans(js, |js|);
    assert At(js, 0, js) && At(toks, 0, toks);
    PaddedText(js, 0, pre, d, post);
    BuildTokens(toks, js, d, |pre|, 0, -1, |toks|);
  }

  /** A text of nothing but white space is refused. */
  lemma BlankTextRefused(s: string)
    requires Blanks(s)
    ensures Deserialize(s) == None
  {
    hide Run, Build, Blanks, Leads;
    assert At(s, 0, s);
    InitInv(s);
    ReadBlanks(s, |s|, INIT, s);
    RunsOut(s, |s|, INIT.(pos := |s|));
  }

  /** The tokens of an object text that holds one primitive and no value. */
  lemma KeyAloneTokens(js: string, p: string)
    requires js == "{" + (p + "}") && PrimitiveText(p)
    ensures Run(js, |js|, INIT) ==
            Good([Token(Object, 0, |js|, 1, -1), Token(Primitive, 1, 1 + |p|, 0, 0)])
  {
    assert At(js, 0, js);
    hide Run, At, PrimitiveText;
    AtSplit(js, 0, "{", p + "}");
    AtSplit(js, 1, p, "}");
    AtChar(js, 1 + |p|, "}");
    ReadKeyAlone(js, p);
  }

  lemma ReadKeyAlone(js: string, p: string)
    requires |js| == 2 + |p| && PrimitiveText(p)
    requires At(js, 0, "{") && At(js, 1, p) && At(js, 1 + |p|, "}") && Stop(js, 1 + |p|)
    ensures Run(js, |js|, INIT) ==
            Good([Token(Object, 0, |js|, 1, -1), Token(Primitive, 1, 1 + |p|, 0, 0)])
  {
    hide Leads, Chained, Placed, PrimitiveText, Run, At, PastOpen, PastLeaf, PastClose, Stop;
    var n := |js|;
    InitInv(js);
    KeyAloneStates(|p|);
    var s := PastOpen(INIT, Object);
    ReadOpen(js, n, INIT, Object);
    LeadsInv(js, n, INIT, s);
    var t := PastLeaf(s, Primitive, 1, 1 + |p|, 1 + |p|);
    ReadPrimitive(js, n, s, p);
    LeadsInv(js, n, s, t);
    var u := PastClose(t, 0);
    ReadClose(js, n, t, 0, Object);
    LeadsTrans(js, n, INIT, s, t);
    LeadsTrans(js, n, INIT, t, u);
    RunsOut(js, n, u);
  }

  lemma KeyAloneStates(len: nat)
    ensures var s := PastOpen(INIT, Object);
            && Linked(s) && s.pos == 1
            && var t := PastLeaf(s, Primitive, 1, 1 + len, 1 + len);
               && t.pos == 1 + len && t.toks == [Token(Object, 0, -1, 1, -1), Token(Primitive, 1, 1 + len, 0, 0)]
               && LastOpen(t.toks) == 0
               && var u := PastClose(t, 0);
                  && u.pos == 2 + len && LastOpen(u.toks) == -1
                  && u.toks == [Token(Object, 0, 2 + len, 1, -1), Token(Primitive, 1, 1 + len, 0, 0)]
  {
    var t := PastLeaf(PastOpen(INIT, Object), Primitive, 1, 1 + len, 1 + len);
    assert Open(t.toks[0]) && !Open(t.toks[1]);
  }

  /** An object text in which a primitive stands alone is refused. */
  lemma KeyAloneRefused(p: string)
    requires PrimitiveText(p)
    ensures Deserialize("{" + (p + "}")) == None
  {
    hide Run, PrimitiveText;
    var js := "{" + (p + "}");
    KeyAloneTokens(js, p);
    ParsedSpans(js, |js|);
    var toks := Run(js, |js|, INIT).toks;
    assert BuildMembers(toks, 0, 2, js, 1, []) == Thrown;
  }

  lemma SerializedReadsBack(v: Value)
    requires WellFormed(v)
    ensures Deserialize(Serialize(v)) == Some(v)
  {
    hide *;
    LayoutText(v);
    LayoutReadable(v);
    LayoutMeaning(v);
    NoBlanks();
    assert "" + (Serialize(v) + "") == Serialize(v);
    TextReadsBack("", Layout(v), "");
  }

  /** Printing then parsing gives the value back exactly when the value is well formed. */
  lemma RoundTrip(v: Value)
    ensures Deserialize(Serialize(v)) == Some(v) <==> WellFormed(v)
  {
    hide *;
    DeserializedIsWellFormed(Serialize(v));
    if WellFormed(v) {
      SerializedReadsBack(v);
    }
  }

  /** Parsing reaches a normal form: a value read from any text survives being sent on. */
  lemma ParsedSurvives(js: string)
    ensures Deserialize(js).Some? ==> Deserialize(Serialize(Deserialize(js).value)) == Deserialize(js)
  {
    hide *;
    DeserializedIsWellFormed(js);
    if Deserialize(js).Some? {
      SerializedReadsBack(Deserialize(js).value);
    }
  }

  /** On well-formed values the printed text determines the value. */
  lemma SerializeInjective(v: Value, w: Value)
    requires WellFormed(v) && WellFormed(w) && Serialize(v) == Serialize(w)
    ensures v == w
  {
    hide *;
    SerializedReadsBack(v);
    SerializedReadsBack(w);
  }

  /** Every pool that is large enough gives the same outcome. */
  lemma AnyPool(js: string, pool: nat)
    requires Run(js, pool, INIT) != Bad(NoMem)
    ensures Run(js, pool, INIT) == Run(js, |js|, INIT)
  {
    hide Run;
    InitInv(js);
    PoolSuffices(js, |js|, INIT);
    if pool <= |js| {
      PoolIrrelevant(js, pool, |js|, INIT);
    } else {
      PoolIrrelevant(js, |js|, pool, INIT);
    }
  }

  /** `Payload::deserialize`: the pool doubles until the run fits, and the outcome does not
      depend on the first guess. */
  method DeserializeText(js: string) returns (r: Option<Value>)
    ensures r == Deserialize(js)
  {
    hide Run, Build;
    var numTokens := if |js| / 10 > 500 then |js| / 10 else 500;
    while true
      invariant numTokens >= 500
      decreases |js| - numTokens
    {
      var p := new Parser();
      var tok := new Token[numTokens](_ => BLANK);
      var rc := p.Parse(js, tok);
      InitInv(js);
      if rc < 0 {
        if rc == Code(NoMem) {
          if |js| <= numTokens {
            PoolSuffices(js, numTokens, INIT);
          }
          numTokens := numTokens * 2;
        } else {
          AnyPool(js, numTokens);
          return None;
        }
      } else {
        AnyPool(js, numTokens);
        r := BuildPool(js, tok[..], rc);
        return;
      }
    }
  }

  /** The builder on the whole pool, of which the run filled the first `rc` tokens. */
  method BuildPool(js: string, pool: seq<Token>, rc: nat) returns (r: Option<Value>)
    requires Run(js, |js|, INIT).Good? && rc == |Run(js, |js|, INIT).toks| <= |pool| && |pool| > 0
    requires pool[..rc] == Run(js, |js|, INIT).toks
    requires forall k | rc <= k < |pool| :: pool[k] == BLANK
    ensures r == Deserialize(js)
  {
    hide Run, Build;
    ParsedSpans(js, |js|);
    assert forall k | 0 <= k < rc :: pool[k] == pool[..rc][k];
    var b, used := LsmParse(pool, 0, rc, js);
    if rc > 0 {
      BuildLocal(pool, pool[..rc], 0, rc, js);
      assert pool[..rc][..rc] == pool[..rc];
    } else {
      BlankThrows(pool, js);
    }
    r := if b.Built? then Some(b.value) else None;
  }

  lemma BlankThrows(pool: seq<Token>, js: string)
    requires |pool| > 0 && pool[0] == BLANK && Spans(pool, js)
    ensures Build(pool, 0, 0, js) == Thrown
  {
  }
}
