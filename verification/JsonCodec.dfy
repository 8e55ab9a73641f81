/** Reading a text of any layout: the tokenizer yields the pre-order list of its nodes and
    keys. */
module JsonCodec {
  import opened Jsmn
  import opened JsmnInvariants
  import opened JsonValue
  import opened JsonText
  import opened Texts

  // ----- the tokens of a text

  /** The pre-order tokens of `d` printed at offset `off`, numbered from `base`. */
  function Tokens(d: Doc, off: nat, base: nat, parent: int): (r: seq<Token>)
    ensures |r| > 0 && forall t | t in r :: !Open(t)
  {
    var end := off + |Printed(d)|;
    match d
    case Lit(Str(s)) => [Token(String, off + 1, off + 1 + |s|, 0, parent)]
    case Lit(_) => [Token(Primitive, off, end, 0, parent)]
    case ArrDoc(_, its) => [Token(Array, off, end, |its|, parent)] + ItemTokens(its, off + 1, base + 1, base)
    case ObjDoc(_, fs) => [Token(Object, off, end, |fs|, parent)] + FieldTokens(fs, off + 1, base + 1, base)
  }

  function ItemTokens(its: seq<Item>, off: nat, base: nat, parent: int): (r: seq<Token>)
    ensures forall t | t in r :: !Open(t)
  {
    if its == [] then []
    else
      var h := Tokens(its[0].doc, off + |its[0].pre|, base, parent);
      h + ItemTokens(its[1..], off + |ItemText(its[0])| + 1, base + |h|, parent)
  }

  /** A key is a string of size 1 in the object; its value has the key as parent. */
  function FieldHead(f: Field, off: nat, base: nat, parent: int): (r: seq<Token>)
    ensures |r| > 1 && forall t | t in r :: !Open(t)
    decreases f
  {
    var start := off + |f.pre| + 1;
    [Token(String, start, start + |f.key|, 1, parent)] + Tokens(f.doc, off + |KeyText(f)|, base + 1, base)
  }

  function FieldTokens(fs: seq<Field>, off: nat, base: nat, parent: int): (r: seq<Token>)
    ensures forall t | t in r :: !Open(t)
  {
    if fs == [] then []
    else
      var h := FieldHead(fs[0], off, base, parent);
      h + FieldTokens(fs[1..], off + |FieldText(fs[0])| + 1, base + |h|, parent)
  }

  // ----- text or tokens at a position

  predicate At<T(==)>(js: seq<T>, p: nat, s: seq<T>) {
    p + |s| <= |js| && js[p..p + |s|] == s
  }

  lemma AtSplit<T>(js: seq<T>, p: nat, a: seq<T>, b: seq<T>)
    requires At(js, p, a + b)
    ensures At(js, p, a) && At(js, p + |a|, b)
  {
    var s := js[p..p + |a + b|];
    assert s[..|a|] == a && s[|a|..] == b;
    assert js[p..p + |a|] == s[..|a|];
    assert js[p + |a|..p + |a| + |b|] == s[|a|..];
  }

  lemma AtChar<T>(js: seq<T>, p: nat, s: seq<T>)
    requires At(js, p, s) && s != []
    ensures p < |js| && js[p] == s[0]
  {
    assert js[p..p + |s|][0] == s[0];
  }

  // ----- leaves

  lemma {:induction false} HexReads(js: string, p: nat, n: nat)
    requires p + n <= |js| && forall k | p <= k < p + n :: Hex(js[k])
    ensures HexEnd(js, p, n) == Found(p + n)
    decreases n
  {
    if n != 0 {
      HexReads(js, p + 1, n - 1);
    }
  }

  lemma HexEscapeReads(js: string, p: nat, s: string)
    requires At(js, p, s) && |s| >= 6 && forall k | 2 <= k < 6 :: Hex(s[k])
    ensures HexEnd(js, p + 2, 4) == Found(p + 6)
  {
    assert forall k | p + 2 <= k < p + 6 :: js[k] == js[p..p + |s|][k - p];
    HexReads(js, p + 2, 4);
  }

  /** A string of JSON units is scanned up to the quote that follows it. */
  lemma {:induction false} StringReads(js: string, p: nat, s: string)
    requires Units(s) && At(js, p, s) && p + |s| < |js| && js[p + |s|] == '\"'
    ensures StringEnd(js, p) == Found(p + |s|)
    decreases |s|
  {
    hide HexEnd, Hex;
    if s != [] {
      var n := if s[0] != '\\' then 1 else if Escapable(s[1]) then 2 else 6;
      AtChar(js, p, s);
      assert n > 1 ==> js[p + 1] == js[p..p + |s|][1];
      if n == 6 {
        HexEscapeReads(js, p, s);
      }
      assert s == s[..n] + s[n..];
      AtSplit(js, p, s[..n], s[n..]);
      StringReads(js, p + n, s[n..]);
    }
  }

  /** A string that the text ends in is reported as a partial one. */
  lemma {:induction false} StringCutOff(js: string, p: nat, s: string)
    requires Units(s) && At(js, p, s) && p + |s| == |js|
    ensures StringEnd(js, p) == Lost(Part)
    decreases |s|
  {
    hide HexEnd, Hex;
    if s != [] {
      var n := if s[0] != '\\' then 1 else if Escapable(s[1]) then 2 else 6;
      AtChar(js, p, s);
      assert n > 1 ==> js[p + 1] == js[p..p + |s|][1];
      if n == 6 {
        HexEscapeReads(js, p, s);
      }
      assert s == s[..n] + s[n..];
      AtSplit(js, p, s[..n], s[n..]);
      StringCutOff(js, p + n, s[n..]);
    }
  }

  /** Texts that are no value: cut off in a string, cut off after an opening bracket, and a
      closing bracket by itself. */
  lemma BrokenTexts(s: string, pool: nat)
    requires Units(s) && pool > 0
    ensures Run("\"" + s, pool, INIT) == Bad(Part)
    ensures Run("[", pool, INIT) == Bad(Part) && Run("{", pool, INIT) == Bad(Part)
    ensures Run("]", pool, INIT) == Bad(Inval) && Run("}", pool, INIT) == Bad(Inval)
  {
    hide Units;
    var js := "\"" + s;
    assert At(js, 1, s);
    StringCutOff(js, 1, s);
    assert Advance(js, pool, INIT) == Fail(Part);
    OpenCutOff("[", Array, pool);
    OpenCutOff("{", Object, pool);
  }

  lemma OpenCutOff(js: string, kind: Kind, pool: nat)
    requires Container(kind) && js == (if kind == Array then "[" else "{") && pool > 0
    ensures Run(js, pool, INIT) == Bad(Part)
  {
    var s := State(1, [Token(kind, 0, -1, 0, -1)], 0);
    assert Advance(js, pool, INIT) == Next(s);
    assert Open(s.toks[0]) && LastOpen(s.toks) == 0;
  }

  /** What follows a value: the end of the text or a separator. */
  predicate Stop(js: string, p: nat) {
    AtEnd(js, p) || Separator(js[p])
  }

  lemma {:induction false} PrimitiveReads(js: string, p: nat, s: string)
    requires At(js, p, s) && Stop(js, p + |s|)
    requires forall c | c in s :: Printable(c) && !Separator(c)
    ensures PrimitiveEnd(js, p) == Found(p + |s|)
    decreases |s|
  {
    if s != [] {
      AtChar(js, p, s);
      assert s[0] in s && s == s[..1] + s[1..];
      AtSplit(js, p, s[..1], s[1..]);
      PrimitiveReads(js, p + 1, s[1..]);
    }
  }

  // ----- runs over a text

  /** From `s` the run goes on as from `t`. */
  ghost predicate Leads(js: string, pool: nat, s: State, t: State) {
    Inv(js, s) && Inv(js, t) && Run(js, pool, s) == Run(js, pool, t)
  }

  lemma LeadsInv(js: string, pool: nat, s: State, t: State)
    requires Leads(js, pool, s, t)
    ensures Inv(js, t)
  {
  }

  lemma LeadsTrans(js: string, pool: nat, s: State, t: State, u: State)
    requires Leads(js, pool, s, t) && Leads(js, pool, t, u)
    ensures Leads(js, pool, s, u)
  {
    hide Run, Inv;
  }

  lemma StepTo(js: string, pool: nat, s: State, t: State)
    requires Inv(js, s) && !AtEnd(js, s.pos) && Advance(js, pool, s) == Next(t)
    ensures Leads(js, pool, s, t)
  {
    AdvanceKeepsInv(js, pool, s);
  }

  lemma QuotedAt(js: string, p: nat, s: string)
    requires At(js, p, "\"" + s + "\"")
    ensures p + 1 + |s| < |js| && js[p] == '\"' && At(js, p + 1, s) && js[p + 1 + |s|] == '\"'
  {
    AtSplit(js, p, "\"" + s, "\"");
    AtSplit(js, p, "\"", s);
    AtChar(js, p, "\"");
    AtChar(js, p + 1 + |s|, "\"");
  }

  /** The state after a leaf token. */
  function PastLeaf(st: State, kind: Kind, start: nat, end: nat, pos: nat): State
    requires Linked(st)
  {
    State(pos, Push(st, Token(kind, start, end, 0, st.super)), st.super)
  }

  lemma ReadScanned(js: string, pool: nat, st: State, q: nat)
    requires Inv(js, st) && |js| <= pool && st.pos < |js| && js[st.pos] == '\"'
    requires StringEnd(js, st.pos + 1) == Found(q)
    ensures Leads(js, pool, st, PastLeaf(st, String, st.pos + 1, q, q + 1))
  {
    hide StringEnd;
    StepTo(js, pool, st, PastLeaf(st, String, st.pos + 1, q, q + 1));
  }

  lemma ReadString(js: string, pool: nat, st: State, s: string)
    requires Inv(js, st) && |js| <= pool && Units(s) && At(js, st.pos, "\"" + s + "\"")
    ensures var q := st.pos + 1 + |s|;
            Leads(js, pool, st, PastLeaf(st, String, st.pos + 1, q, q + 1))
  {
    hide *;
    QuotedAt(js, st.pos, s);
    StringReads(js, st.pos + 1, s);
    ReadScanned(js, pool, st, st.pos + 1 + |s|);
  }

  lemma ReadPrimitive(js: string, pool: nat, st: State, s: string)
    requires Inv(js, st) && |js| <= pool && PrimitiveText(s)
    requires At(js, st.pos, s) && Stop(js, st.pos + |s|)
    ensures var q := st.pos + |s|;
            Leads(js, pool, st, PastLeaf(st, Primitive, st.pos, q, q))
  {
    hide PrimitiveEnd;
    var q := st.pos + |s|;
    AtChar(js, st.pos, s);
    assert s[0] in s;
    PrimitiveReads(js, st.pos, s);
    StepTo(js, pool, st, PastLeaf(st, Primitive, st.pos, q, q));
  }

  lemma ReadOpen(js: string, pool: nat, st: State, kind: Kind)
    requires Inv(js, st) && |js| <= pool && Container(kind)
    requires At(js, st.pos, if kind == Array then "[" else "{")
    ensures Leads(js, pool, st, PastOpen(st, kind))
  {
    AtChar(js, st.pos, if kind == Array then "[" else "{");
    StepTo(js, pool, st, PastOpen(st, kind));
  }

  /** `toks` with container `c` given `n` more entries and closed before `end`. */
  function Finish(toks: seq<Token>, c: nat, n: nat, end: nat): (r: seq<Token>)
    requires c < |toks|
    ensures |r| == |toks|
  {
    toks[c := toks[c].(size := toks[c].size + n, end := end)]
  }

  lemma ReadClose(js: string, pool: nat, st: State, c: nat, kind: Kind)
    requires Inv(js, st) && c < |st.toks| && LastOpen(st.toks) == c
    requires st.toks[c].kind == kind && Container(kind)
    requires At(js, st.pos, if kind == Array then "]" else "}")
    ensures Leads(js, pool, st, PastClose(st, c))
  {
    AtChar(js, st.pos, if kind == Array then "]" else "}");
    CloseIsClosed(st, kind);
    StepTo(js, pool, st, PastClose(st, c));
  }

  /** A comma after an entry of container `c`. */
  lemma ReadComma(js: string, pool: nat, st: State, c: int)
    requires Inv(js, st) && At(js, st.pos, ",") && 0 <= st.super < |st.toks|
    requires if Container(st.toks[st.super].kind) then st.super == c else st.toks[st.super].parent == c
    ensures Leads(js, pool, st, State(st.pos + 1, st.toks, c))
  {
    AtChar(js, st.pos, ",");
    StepTo(js, pool, st, State(st.pos + 1, st.toks, c));
  }

  lemma ReadColon(js: string, pool: nat, st: State)
    requires Inv(js, st) && At(js, st.pos, ":")
    ensures Leads(js, pool, st, State(st.pos + 1, st.toks, |st.toks| - 1))
  {
    hide Run, StringEnd, PrimitiveEnd, Chained, Placed;
    AtChar(js, st.pos, ":");
    StepTo(js, pool, st, State(st.pos + 1, st.toks, |st.toks| - 1));
  }

  lemma ReadBlank(js: string, pool: nat, st: State)
    requires Inv(js, st) && st.pos < |js| && Space(js[st.pos])
    ensures Leads(js, pool, st, st.(pos := st.pos + 1))
  {
    hide Run, StringEnd, PrimitiveEnd, Chained, Placed;
    StepTo(js, pool, st, st.(pos := st.pos + 1));
  }

  /** White space is passed over. */
  lemma {:induction false} ReadBlanks(js: string, pool: nat, st: State, s: string)
    requires Inv(js, st) && Blanks(s) && At(js, st.pos, s)
    ensures Leads(js, pool, st, st.(pos := st.pos + |s|))
    decreases |s|
  {
    hide Run, Inv, At;
    if s == [] {
      assert st.(pos := st.pos + |s|) == st;
      LeadsSelf(js, pool, st);
    } else {
      var t := st.(pos := st.pos + 1);
      AtChar(js, st.pos, s);
      assert s[0] in s && s == s[..1] + s[1..];
      AtSplit(js, st.pos, s[..1], s[1..]);
      ReadBlank(js, pool, st);
      LeadsInv(js, pool, st, t);
      assert forall c | c in s[1..] :: c in s;
      ReadBlanks(js, pool, t, s[1..]);
      LeadsTrans(js, pool, st, t, st.(pos := st.pos + |s|));
    }
  }

  lemma LeadsSelf(js: string, pool: nat, st: State)
    requires Inv(js, st)
    ensures Leads(js, pool, st, st)
  {
  }

  /** Blanks before a separator or the end leave a place where a primitive stops. */
  lemma BlanksStop(js: string, p: nat, s: string)
    requires Blanks(s) && At(js, p, s) && Stop(js, p + |s|)
    ensures Stop(js, p)
  {
    if s != [] {
      AtChar(js, p, s);
      assert s[0] in s;
    }
  }

  // ----- states after parts of a text

  /** The state after the document `d`. */
  function PastDoc(st: State, d: Doc): State
    requires Linked(st)
  {
    State(st.pos + |Printed(d)|,
          Bump(st.toks, st.super, 1) + Tokens(d, st.pos, |st.toks|, st.super), st.super)
  }

  /** Closed tokens at the end do not change which container is innermost. */
  lemma LastOpenKept(toks: seq<Token>, super: int, n: nat, more: seq<Token>)
    requires -1 <= super < |toks| && forall t | t in more :: !Open(t)
    ensures LastOpen(Bump(toks, super, n) + more) == LastOpen(toks)
  {
    var all := Bump(toks, super, n) + more;
    assert forall j | |toks| <= j < |all| :: all[j] in more;
    assert LastOpen(toks) != -1 ==> Open(all[LastOpen(toks)]);
  }

  /** The state after an entry: `head` are its tokens and `super` what it leaves behind. */
  function PastEntry(st: State, len: nat, head: seq<Token>, super: int): State
    requires Linked(st)
  {
    State(st.pos + len, Bump(st.toks, st.super, 1) + head, super)
  }

  /** The state after all entries and the closing bracket of container `c`. */
  function PastAll(st: State, len: nat, n: nat, toks: seq<Token>, c: nat): State
    requires c < |st.toks|
  {
    var end := st.pos + len;
    State(end, Finish(st.toks, c, n, end) + toks, st.toks[c].parent)
  }

  /** The state after the closing bracket of container `c`. */
  function PastClose(st: State, c: nat): State
    requires c < |st.toks|
  {
    State(st.pos + 1, Finish(st.toks, c, 0, st.pos + 1), st.toks[c].parent)
  }

  lemma FinishBumped(toks: seq<Token>, c: nat, n: nat, end: nat, more: seq<Token>)
    requires c < |toks|
    ensures Finish(Bump(toks, c, 1) + more, c, n, end) == Finish(toks, c, n + 1, end) + more
  {
  }

  /** No entry but white space before the closing bracket. */
  lemma NoEntry(st: State, c: nat, len: nat)
    requires c < |st.toks|
    ensures PastClose(st.(pos := st.pos + len), c) == PastAll(st, len + 1, 0, [], c)
  {
  }

  lemma LastEntry(st: State, len: nat, head: seq<Token>, super: int, c: nat)
    requires Linked(st) && st.super == c
    ensures PastClose(PastEntry(st, len, head, super), c) == PastAll(st, len + 1, 1, head, c)
  {
    FinishBumped(st.toks, c, 0, st.pos + len + 1, head);
  }

  lemma MoreEntries(st: State, len: nat, head: seq<Token>, super: int, rest: nat, n: nat, more: seq<Token>, c: nat)
    requires Linked(st) && st.super == c
    ensures var s := PastEntry(st, len, head, super);
            PastAll(State(s.pos + 1, s.toks, c), rest, n, more, c) ==
            PastAll(st, len + 1 + rest, n + 1, head + more, c)
  {
    hide Finish, Bump;
    var end := st.pos + len + 1 + rest;
    FinishBumped(st.toks, c, n, end, head);
    FinishKeeps(st.toks, c, head);
    Associative(Finish(st.toks, c, n + 1, end), head, more);
  }

  lemma FinishKeeps(toks: seq<Token>, c: nat, head: seq<Token>)
    requires c < |toks|
    ensures |Bump(toks, c, 1)| == |toks| && (Bump(toks, c, 1) + head)[c].parent == toks[c].parent
  {
  }

  // ----- elements

  /** What follows the first element. */
  function AfterItem(pad: string, its: seq<Item>): string
    requires its != []
  {
    if |its| == 1 then "]" else "," + ItemsText(pad, its[1..])
  }

  lemma ItemsSplit(pad: string, its: seq<Item>)
    requires its != []
    ensures ItemsText(pad, its) == ItemText(its[0]) + AfterItem(pad, its)
  {
    hide ItemText;
  }

  lemma AfterItemAt(js: string, p: nat, pad: string, its: seq<Item>)
    requires its != [] && At(js, p, AfterItem(pad, its))
    ensures Stop(js, p)
    ensures if |its| == 1 then At(js, p, "]") else At(js, p, ",") && At(js, p + 1, ItemsText(pad, its[1..]))
  {
    hide ItemsText, At;
    AtChar(js, p, AfterItem(pad, its));
    if |its| > 1 {
      AtSplit(js, p, ",", ItemsText(pad, its[1..]));
    }
  }

  /** An element, what follows it and the elements after it. */
  lemma ItemAt(js: string, p: nat, pad: string, its: seq<Item>)
    requires its != [] && At(js, p, ItemsText(pad, its))
    ensures At(js, p, ItemText(its[0]))
    ensures var q := p + |ItemText(its[0])|;
            && Stop(js, q)
            && (if |its| == 1 then At(js, q, "]") else At(js, q, ",") && At(js, q + 1, ItemsText(pad, its[1..])))
  {
    hide ItemText, ItemsText, AfterItem, At, Stop;
    ItemsSplit(pad, its);
    AtSplit(js, p, ItemText(its[0]), AfterItem(pad, its));
    AfterItemAt(js, p + |ItemText(its[0])|, pad, its);
  }

  /** The parts of an element or of the value of a member. */
  lemma PaddedAt(js: string, p: nat, pre: string, d: Doc, post: string)
    requires At(js, p, pre + (Printed(d) + post)) && Blanks(post) && Stop(js, p + |pre| + |Printed(d)| + |post|)
    ensures At(js, p, pre) && At(js, p + |pre|, Printed(d))
    ensures At(js, p + |pre| + |Printed(d)|, post) && Stop(js, p + |pre| + |Printed(d)|)
  {
    hide At, Printed, Stop, Blanks;
    AtSplit(js, p, pre, Printed(d) + post);
    AtSplit(js, p + |pre|, Printed(d), post);
    BlanksStop(js, p + |pre| + |Printed(d)|, post);
  }

  function PastItem(st: State, it: Item): State
    requires Linked(st)
  {
    PastEntry(st, |ItemText(it)|, Tokens(it.doc, st.pos + |it.pre|, |st.toks|, st.super), st.super)
  }

  lemma {:induction false} ReadItem(js: string, pool: nat, st: State, it: Item)
    requires Inv(js, st) && |js| <= pool && ReadableItem(it)
    requires At(js, st.pos, ItemText(it)) && Stop(js, st.pos + |ItemText(it)|)
    ensures Leads(js, pool, st, PastItem(st, it))
    decreases it
  {
    hide Leads, Chained, Placed, At, Readable, Blanks, Stop, Printed, Bump, Tokens;
    PaddedAt(js, st.pos, it.pre, it.doc, it.post);
    var s := st.(pos := st.pos + |it.pre|);
    ReadBlanks(js, pool, st, it.pre);
    LeadsInv(js, pool, st, s);
    var t := PastDoc(s, it.doc);
    ReadDoc(js, pool, s, it.doc);
    LeadsInv(js, pool, s, t);
    ReadBlanks(js, pool, t, it.post);
    LeadsTrans(js, pool, s, t, PastItem(st, it));
    LeadsTrans(js, pool, st, s, PastItem(st, it));
  }

  lemma ItemsLength(pad: string, its: seq<Item>)
    requires its != []
    ensures |ItemsText(pad, its)| == |ItemText(its[0])| + 1 + if |its| == 1 then 0 else |ItemsText(pad, its[1..])|
  {
    hide ItemText;
  }

  function PastItems(st: State, pad: string, its: seq<Item>, c: nat): State
    requires c < |st.toks|
  {
    PastAll(st, |ItemsText(pad, its)|, |its|, ItemTokens(its, st.pos, |st.toks|, c), c)
  }

  lemma LastItem(st: State, pad: string, its: seq<Item>, c: nat)
    requires Linked(st) && st.super == c && |its| == 1
    ensures PastClose(PastItem(st, its[0]), c) == PastItems(st, pad, its, c)
  {
    hide ItemText, Tokens, PastEntry, PastAll, PastClose;
    var h := Tokens(its[0].doc, st.pos + |its[0].pre|, |st.toks|, c);
    assert its[1..] == [] && ItemTokens(its, st.pos, |st.toks|, c) == h + [] == h;
    ItemsLength(pad, its);
    LastEntry(st, |ItemText(its[0])|, h, c, c);
  }

  lemma MoreItems(st: State, pad: string, its: seq<Item>, c: nat)
    requires Linked(st) && st.super == c && |its| > 1
    ensures var s := PastItem(st, its[0]);
            PastItems(State(s.pos + 1, s.toks, c), pad, its[1..], c) == PastItems(st, pad, its, c)
  {
    hide ItemText, ItemsText, Tokens, PastAll;
    var s, h := PastItem(st, its[0]), Tokens(its[0].doc, st.pos + |its[0].pre|, |st.toks|, c);
    var more := ItemTokens(its[1..], s.pos + 1, |s.toks|, c);
    assert ItemTokens(its, st.pos, |st.toks|, c) == h + more;
    ItemsLength(pad, its);
    MoreEntries(st, |ItemText(its[0])|, h, c, |ItemsText(pad, its[1..])|, |its| - 1, more, c);
  }

  lemma {:induction false} ReadItems(js: string, pool: nat, st: State, pad: string, its: seq<Item>, c: nat)
    requires Inv(js, st) && |js| <= pool && c < |st.toks| && Blanks(pad)
    requires st.super == c == LastOpen(st.toks) && st.toks[c].kind == Array
    requires At(js, st.pos, ItemsText(pad, its)) && forall it | it in its :: ReadableItem(it)
    ensures Leads(js, pool, st, PastItems(st, pad, its, c))
    decreases its
  {
    hide Leads, ItemText, Tokens, Chained, Placed, Finish, At, Blanks, ReadableItem;
    if its == [] {
      ReadEmpty(js, pool, st, pad, c, Array);
      NoEntry(st, c, |pad|);
      assert ItemTokens(its, st.pos, |st.toks|, c) == [];
    } else {
      ItemAt(js, st.pos, pad, its);
      hide ItemsText;
      var s := PastItem(st, its[0]);
      ReadItem(js, pool, st, its[0]);
      LastOpenKept(st.toks, c, 1, Tokens(its[0].doc, st.pos + |its[0].pre|, |st.toks|, c));
      LeadsInv(js, pool, st, s);
      hide PastItems;
      if |its| == 1 {
        ReadClose(js, pool, s, c, Array);
        LeadsTrans(js, pool, st, s, PastClose(s, c));
        LastItem(st, pad, its, c);
      } else {
        ReadComma(js, pool, s, c);
        var t := State(s.pos + 1, s.toks, c);
        LeadsInv(js, pool, s, t);
        ReadItems(js, pool, t, pad, its[1..], c);
        MoreItems(st, pad, its, c);
        LeadsTrans(js, pool, s, t, PastItems(st, pad, its, c));
        LeadsTrans(js, pool, st, s, PastItems(st, pad, its, c));
      }
    }
  }

  /** White space and the closing bracket. */
  lemma ReadEmpty(js: string, pool: nat, st: State, pad: string, c: nat, kind: Kind)
    requires Inv(js, st) && c < |st.toks| && LastOpen(st.toks) == c && Blanks(pad)
    requires st.toks[c].kind == kind && Container(kind)
    requires At(js, st.pos, pad + if kind == Array then "]" else "}")
    ensures Leads(js, pool, st, PastClose(st.(pos := st.pos + |pad|), c))
  {
    hide Leads, At, Chained, Placed, Blanks, Finish;
    var s := st.(pos := st.pos + |pad|);
    AtSplit(js, st.pos, pad, if kind == Array then "]" else "}");
    ReadBlanks(js, pool, st, pad);
    LeadsInv(js, pool, st, s);
    ReadClose(js, pool, s, c, kind);
    LeadsTrans(js, pool, st, s, PastClose(s, c));
  }

  // ----- members

  /** The parts of a key. */
  lemma KeyAt(js: string, p: nat, f: Field)
    requires At(js, p, KeyText(f))
    ensures var a := p + |f.pre|;
            var b := a + |f.key| + 2;
            var c := b + |f.mid|;
            && At(js, p, f.pre) && At(js, a, "\"" + f.key + "\"") && At(js, b, f.mid) && At(js, c, ":")
            && At(js, c + 1, f.aft) && c + 1 + |f.aft| == p + |KeyText(f)|
  {
    hide At;
    var quoted := "\"" + f.key + "\"";
    var a := p + |f.pre|;
    AtSplit(js, p, f.pre, quoted + (f.mid + (":" + f.aft)));
    AtSplit(js, a, quoted, f.mid + (":" + f.aft));
    AtSplit(js, a + |quoted|, f.mid, ":" + f.aft);
    AtSplit(js, a + |quoted| + |f.mid|, ":", f.aft);
  }

  /** The state after the key of a member. */
  function PastKey(st: State, f: Field): (r: State)
    requires Linked(st)
    ensures Linked(r)
  {
    var start := st.pos + |f.pre| + 1;
    State(st.pos + |KeyText(f)|, Push(st, Token(String, start, start + |f.key|, 0, st.super)), |st.toks|)
  }

  lemma ReadKey(js: string, pool: nat, st: State, f: Field)
    requires Inv(js, st) && |js| <= pool && ReadableField(f) && At(js, st.pos, KeyText(f))
    ensures Leads(js, pool, st, PastKey(st, f))
  {
    hide Run, Units, At, Chained, Placed, Blanks, Readable, KeyText, Bump, Leads;
    KeyAt(js, st.pos, f);
    var a := st.pos + |f.pre|;
    var s := st.(pos := a);
    ReadBlanks(js, pool, st, f.pre);
    LeadsInv(js, pool, st, s);
    var q := a + 1 + |f.key|;
    var t := PastLeaf(s, String, a + 1, q, q + 1);
    ReadString(js, pool, s, f.key);
    LeadsInv(js, pool, s, t);
    LeadsTrans(js, pool, st, s, t);
    AfterKey(js, pool, t, f);
    LeadsTrans(js, pool, st, t, PastKey(st, f));
  }

  lemma AfterKey(js: string, pool: nat, t: State, f: Field)
    requires Inv(js, t) && Blanks(f.mid) && Blanks(f.aft)
    requires At(js, t.pos, f.mid) && At(js, t.pos + |f.mid|, ":") && At(js, t.pos + |f.mid| + 1, f.aft)
    ensures Leads(js, pool, t, State(t.pos + |f.mid| + 1 + |f.aft|, t.toks, |t.toks| - 1))
  {
    hide Run, At, Chained, Placed, Blanks, Leads;
    var u := t.(pos := t.pos + |f.mid|);
    ReadBlanks(js, pool, t, f.mid);
    LeadsInv(js, pool, t, u);
    var v := State(u.pos + 1, u.toks, |u.toks| - 1);
    ReadColon(js, pool, u);
    LeadsInv(js, pool, u, v);
    LeadsTrans(js, pool, t, u, v);
    ReadBlanks(js, pool, v, f.aft);
    LeadsTrans(js, pool, t, v, v.(pos := v.pos + |f.aft|));
  }

  function PastField(st: State, f: Field): State
    requires Linked(st)
  {
    PastEntry(st, |FieldText(f)|, FieldHead(f, st.pos, |st.toks|, st.super), |st.toks|)
  }

  lemma FieldShape(st: State, f: Field)
    requires Linked(st)
    ensures var s := PastDoc(PastKey(st, f), f.doc); s.(pos := s.pos + |f.post|) == PastField(st, f)
  {
    hide Printed, KeyText, Tokens;
    var k := PastKey(st, f);
    var x := Tokens(f.doc, k.pos, |k.toks|, k.super);
    var start := st.pos + |f.pre| + 1;
    var key := Token(String, start, start + |f.key|, 1, st.super);
    assert Bump(k.toks, k.super, 1) == Bump(st.toks, st.super, 1) + [key];
    Associative(Bump(st.toks, st.super, 1), [key], x);
  }

  lemma {:induction false} ReadField(js: string, pool: nat, st: State, f: Field)
    requires Inv(js, st) && |js| <= pool && ReadableField(f)
    requires At(js, st.pos, FieldText(f)) && Stop(js, st.pos + |FieldText(f)|)
    ensures Leads(js, pool, st, PastField(st, f))
    decreases f
  {
    hide Leads, Chained, Placed, At, Readable, Blanks, Stop, Printed, Units, KeyText, PastField, Bump, Tokens;
    PaddedAt(js, st.pos, KeyText(f), f.doc, f.post);
    var k := PastKey(st, f);
    ReadKey(js, pool, st, f);
    LeadsInv(js, pool, st, k);
    var t := PastDoc(k, f.doc);
    ReadDoc(js, pool, k, f.doc);
    LeadsInv(js, pool, k, t);
    ReadBlanks(js, pool, t, f.post);
    FieldShape(st, f);
    LeadsTrans(js, pool, k, t, PastField(st, f));
    LeadsTrans(js, pool, st, k, PastField(st, f));
  }

  /** What follows the first member. */
  function AfterField(pad: string, fs: seq<Field>): string
    requires fs != []
  {
    if |fs| == 1 then "}" else "," + FieldsText(pad, fs[1..])
  }

  lemma FieldsSplit(pad: string, fs: seq<Field>)
    requires fs != []
    ensures FieldsText(pad, fs) == FieldText(fs[0]) + AfterField(pad, fs)
  {
    hide FieldText;
  }

  lemma AfterFieldAt(js: string, p: nat, pad: string, fs: seq<Field>)
    requires fs != [] && At(js, p, AfterField(pad, fs))
    ensures Stop(js, p)
    ensures if |fs| == 1 then At(js, p, "}") else At(js, p, ",") && At(js, p + 1, FieldsText(pad, fs[1..]))
  {
    hide FieldsText, At;
    AtChar(js, p, AfterField(pad, fs));
    if |fs| > 1 {
      AtSplit(js, p, ",", FieldsText(pad, fs[1..]));
    }
  }

  /** A member, what follows it and the members after it. */
  lemma FieldAt(js: string, p: nat, pad: string, fs: seq<Field>)
    requires fs != [] && At(js, p, FieldsText(pad, fs))
    ensures At(js, p, FieldText(fs[0]))
    ensures var q := p + |FieldText(fs[0])|;
            && Stop(js, q)
            && (if |fs| == 1 then At(js, q, "}") else At(js, q, ",") && At(js, q + 1, FieldsText(pad, fs[1..])))
  {
    hide FieldText, FieldsText, AfterField, At, Stop;
    FieldsSplit(pad, fs);
    AtSplit(js, p, FieldText(fs[0]), AfterField(pad, fs));
    AfterFieldAt(js, p + |FieldText(fs[0])|, pad, fs);
  }

  lemma FieldsLength(pad: string, fs: seq<Field>)
    requires fs != []
    ensures |FieldsText(pad, fs)| == |FieldText(fs[0])| + 1 + if |fs| == 1 then 0 else |FieldsText(pad, fs[1..])|
  {
    hide FieldText;
  }

  function PastFields(st: State, pad: string, fs: seq<Field>, c: nat): State
    requires c < |st.toks|
  {
    PastAll(st, |FieldsText(pad, fs)|, |fs|, FieldTokens(fs, st.pos, |st.toks|, c), c)
  }

  lemma LastField(st: State, pad: string, fs: seq<Field>, c: nat)
    requires Linked(st) && st.super == c && |fs| == 1
    ensures PastClose(PastField(st, fs[0]), c) == PastFields(st, pad, fs, c)
  {
    hide FieldText, FieldHead, PastEntry, PastAll, PastClose;
    var h := FieldHead(fs[0], st.pos, |st.toks|, c);
    assert fs[1..] == [] && FieldTokens(fs, st.pos, |st.toks|, c) == h + [] == h;
    FieldsLength(pad, fs);
    LastEntry(st, |FieldText(fs[0])|, h, |st.toks|, c);
  }

  lemma MoreFields(st: State, pad: string, fs: seq<Field>, c: nat)
    requires Linked(st) && st.super == c && |fs| > 1
    ensures var s := PastField(st, fs[0]);
            PastFields(State(s.pos + 1, s.toks, c), pad, fs[1..], c) == PastFields(st, pad, fs, c)
  {
    hide FieldText, FieldsText, FieldHead, PastAll;
    var s, h := PastField(st, fs[0]), FieldHead(fs[0], st.pos, |st.toks|, c);
    var more := FieldTokens(fs[1..], s.pos + 1, |s.toks|, c);
    assert FieldTokens(fs, st.pos, |st.toks|, c) == h + more;
    FieldsLength(pad, fs);
    MoreEntries(st, |FieldText(fs[0])|, h, |st.toks|, |FieldsText(pad, fs[1..])|, |fs| - 1, more, c);
  }

  /** After a member `super` is its key, whose parent is the object. */
  lemma PastFieldSuper(st: State, f: Field)
    requires Linked(st)
    ensures var s := PastField(st, f);
            s.super < |s.toks| && s.toks[s.super].kind == String && s.toks[s.super].parent == st.super
  {
    hide FieldText, Tokens, KeyText;
  }

  lemma {:induction false} ReadFields(js: string, pool: nat, st: State, pad: string, fs: seq<Field>, c: nat)
    requires Inv(js, st) && |js| <= pool && c < |st.toks| && Blanks(pad)
    requires st.super == c == LastOpen(st.toks) && st.toks[c].kind == Object
    requires At(js, st.pos, FieldsText(pad, fs)) && forall f | f in fs :: ReadableField(f)
    ensures Leads(js, pool, st, PastFields(st, pad, fs, c))
    decreases fs
  {
    hide Leads, FieldText, FieldHead, Chained, Placed, Finish, At, Blanks, ReadableField;
    if fs == [] {
      ReadEmpty(js, pool, st, pad, c, Object);
      NoEntry(st, c, |pad|);
      assert FieldTokens(fs, st.pos, |st.toks|, c) == [];
    } else {
      FieldAt(js, st.pos, pad, fs);
      hide FieldsText;
      var s := PastField(st, fs[0]);
      ReadField(js, pool, st, fs[0]);
      LastOpenKept(st.toks, c, 1, FieldHead(fs[0], st.pos, |st.toks|, c));
      LeadsInv(js, pool, st, s);
      PastFieldSuper(st, fs[0]);
      hide PastFields;
      if |fs| == 1 {
        ReadClose(js, pool, s, c, Object);
        LeadsTrans(js, pool, st, s, PastClose(s, c));
        LastField(st, pad, fs, c);
      } else {
        ReadComma(js, pool, s, c);
        var t := State(s.pos + 1, s.toks, c);
        LeadsInv(js, pool, s, t);
        ReadFields(js, pool, t, pad, fs[1..], c);
        MoreFields(st, pad, fs, c);
        LeadsTrans(js, pool, s, t, PastFields(st, pad, fs, c));
        LeadsTrans(js, pool, st, s, PastFields(st, pad, fs, c));
      }
    }
  }

  // ----- documents

  /** The state after an opening bracket. */
  function PastOpen(st: State, kind: Kind): State
    requires Linked(st)
  {
    State(st.pos + 1, Push(st, Token(kind, st.pos, -1, 0, st.super)), |st.toks|)
  }

  lemma OpenShape(st: State, kind: Kind)
    requires Linked(st)
    ensures LastOpen(PastOpen(st, kind).toks) == |st.toks|
    ensures forall n: nat, end: nat ::
              Finish(PastOpen(st, kind).toks, |st.toks|, n, end) ==
              Bump(st.toks, st.super, 1) + [Token(kind, st.pos, end, n, st.super)]
  {
  }

  lemma ArrayShape(st: State, d: Doc)
    requires Linked(st) && d.ArrDoc?
    ensures PastItems(PastOpen(st, Array), d.pad, d.items, |st.toks|) == PastDoc(st, d)
  {
    hide ItemTokens, ItemsText, Bump, Finish;
    OpenShape(st, Array);
    var t := Token(Array, st.pos, st.pos + |Printed(d)|, |d.items|, st.super);
    Associative(Bump(st.toks, st.super, 1), [t], ItemTokens(d.items, st.pos + 1, |st.toks| + 1, |st.toks|));
  }

  lemma ObjectShape(st: State, d: Doc)
    requires Linked(st) && d.ObjDoc?
    ensures PastFields(PastOpen(st, Object), d.pad, d.fields, |st.toks|) == PastDoc(st, d)
  {
    hide FieldTokens, FieldsText, Bump, Finish;
    OpenShape(st, Object);
    var t := Token(Object, st.pos, st.pos + |Printed(d)|, |d.fields|, st.super);
    Associative(Bump(st.toks, st.super, 1), [t], FieldTokens(d.fields, st.pos + 1, |st.toks| + 1, |st.toks|));
  }

  lemma ReadLit(js: string, pool: nat, st: State, d: Doc)
    requires Inv(js, st) && |js| <= pool && d.Lit? && Readable(d)
    requires At(js, st.pos, Printed(d)) && Stop(js, st.pos + |Printed(d)|)
    ensures Leads(js, pool, st, PastDoc(st, d))
  {
    hide Leads, Chained, Placed, At, Units, Bump, Stop;
    if d.v.Str? {
      ReadString(js, pool, st, d.v.text);
    } else {
      LiteralText(d.v);
      ReadPrimitive(js, pool, st, Printed(d));
    }
  }

  lemma LiteralText(v: Value)
    requires Scalar(v) && WellFormed(v) && !v.Str?
    ensures PrimitiveText(LitText(v))
  {
  }

  /** From any state in order, reading a text of any layout appends exactly its pre-order
      tokens, counts it in the superior token and restores `super`. */
  lemma {:induction false} ReadDoc(js: string, pool: nat, st: State, d: Doc)
    requires Inv(js, st) && |js| <= pool && Readable(d)
    requires At(js, st.pos, Printed(d)) && Stop(js, st.pos + |Printed(d)|)
    ensures Leads(js, pool, st, PastDoc(st, d))
    decreases d
  {
    hide Leads, Chained, Placed, At, ItemsText, FieldsText, Blanks, ReadableItem, ReadableField;
    match d {
      case Lit(_) =>
        ReadLit(js, pool, st, d);
      case ArrDoc(pad, its) =>
        hide PastDoc, PastItems;
        var t := PastOpen(st, Array);
        AtSplit(js, st.pos, "[", ItemsText(pad, its));
        ReadOpen(js, pool, st, Array);
        LeadsInv(js, pool, st, t);
        OpenShape(st, Array);
        ReadItems(js, pool, t, pad, its, |st.toks|);
        ArrayShape(st, d);
        LeadsTrans(js, pool, st, t, PastDoc(st, d));
      case ObjDoc(pad, fs) =>
        hide PastDoc, PastFields;
        var t := PastOpen(st, Object);
        AtSplit(js, st.pos, "{", FieldsText(pad, fs));
        ReadOpen(js, pool, st, Object);
        LeadsInv(js, pool, st, t);
        OpenShape(st, Object);
        ReadFields(js, pool, t, pad, fs, |st.toks|);
        ObjectShape(st, d);
        LeadsTrans(js, pool, st, t, PastDoc(st, d));
    }
  }

  /** On a text of any layout, with white space around it, the tokenizer yields exactly the
      pre-order list of its nodes and keys, with their kinds, spans, sizes and parents. */
  lemma TokensOfText(pre: string, d: Doc, post: string, pool: nat)
    requires Blanks(pre) && Readable(d) && Blanks(post) && |pre + (Printed(d) + post)| <= pool
    ensures Run(pre + (Printed(d) + post), pool, INIT) == Good(Tokens(d, |pre|, 0, -1))
  {
    hide Leads, Chained, Placed, Readable, Blanks, Printed, Tokens, Bump, Run;
    var js := pre + (Printed(d) + post);
    assert At(js, 0, js);
    InitInv(js);
    hide At;
    PaddedAt(js, 0, pre, d, post);
    var s := INIT.(pos := |pre|);
    ReadBlanks(js, pool, INIT, pre);
    LeadsInv(js, pool, INIT, s);
    var t := PastDoc(s, d);
    ReadDoc(js, pool, s, d);
    LeadsInv(js, pool, s, t);
    var u := t.(pos := |js|);
    ReadBlanks(js, pool, t, post);
    LeadsTrans(js, pool, s, t, u);
    LeadsTrans(js, pool, INIT, s, u);
    NoneBefore(Tokens(d, |pre|, 0, -1));
    RunsOut(js, pool, u);
  }

  lemma NoneBefore(toks: seq<Token>)
    requires forall t | t in toks :: !Open(t)
    ensures Bump([], -1, 1) + toks == toks && LastOpen(toks) == -1
  {
  }

  lemma RunsOut(js: string, pool: nat, u: State)
    requires Leads(js, pool, INIT, u) && u.pos == |js| && LastOpen(u.toks) == -1
    ensures Run(js, pool, INIT) == Good(u.toks)
  {
  }

  /** The same for the text of a well-formed value. */
  lemma TokensOfSerialized(v: Value, pool: nat)
    requires WellFormed(v) && |Serialize(v)| <= pool
    ensures Run(Serialize(v), pool, INIT) == Good(Tokens(Layout(v), 0, 0, -1))
  {
    hide *;
    LayoutText(v);
    LayoutReadable(v);
    NoBlanks();
    assert "" + (Serialize(v) + "") == Serialize(v);
    TokensOfText("", Layout(v), "", pool);
  }
}
