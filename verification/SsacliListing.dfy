/** Parsing the printed listing of a tree gives the nested dictionary of the tree. */
module SsacliListing {
  import opened Wrappers
  import opened Texts
  import opened Ssacli

  // ----- trees and dictionaries

  /** The text of a line: a title, or a key and its value printed as `key: value`. */
  datatype Label = Plain(text: string) | Pair(key: string, value: string)

  /** A line and the lines below it. */
  datatype Node = Node(head: Label, kids: seq<Node>)

  function LabelText(h: Label): string {
    match h
    case Plain(t) => t
    case Pair(k, v) => k + (": " + v)
  }

  function Title(n: Node): string {
    LabelText(n.head)
  }

  datatype Item = NoValue | Str(text: string) | Dict(entries: seq<Entry>)

  datatype Entry = Entry(key: string, item: Item)

  /** A title as ssacli prints it, none of the lines that are treated specially. */
  predicate GoodTitle(t: string) {
    && t != "" && !White(t[0]) && Without(t, '\n')
    && !StartsWith(t, WARNING) && !StartsWith(t, NOTICE)
    && !StartsWith(t, NOTE) && !StartsWith(t, MIRROR)
  }

  predicate NoColonSpace(s: string) {
    forall i | 0 <= i < |s| - 1 :: s[i] != ':' || s[i + 1] != ' '
  }

  /** Not empty and without white space in front. */
  predicate StartsClean(s: string) {
    s != "" && !White(s[0])
  }

  /** Without white space at its ends. */
  predicate Stripped(s: string) {
    s == "" || (!White(s[0]) && !White(s[|s| - 1]))
  }

  /** A line that starts no section: its title or key is free of a colon and space, and key
      and value have no white space around them. */
  predicate GoodLabel(h: Label) {
    match h
    case Plain(t) => NoColonSpace(t)
    case Pair(k, v) => StartsClean(k) && NoColonSpace(k) && Stripped(v)
  }

  /** A title stands for a key without a value. */
  function LeafEntry(h: Label): Entry {
    match h
    case Plain(t) => Entry(t, NoValue)
    case Pair(k, v) => Entry(k, Str(v))
  }

  function KeyOf(n: Node): string {
    if n.kids != [] then Title(n) else LeafEntry(n.head).key
  }

  predicate DistinctKeys(ns: seq<Node>) {
    forall i, j | 0 <= i < j < |ns| :: KeyOf(ns[i]) != KeyOf(ns[j])
  }

  predicate Shaped(ns: seq<Node>) {
    DistinctKeys(ns) &&
    forall n | n in ns :: GoodTitle(Title(n)) && (n.kids == [] ==> GoodLabel(n.head)) && Shaped(n.kids)
  }

  /** A second-level entry is kept when the next line has the same indentation, that is, it
      has no lines below it and is not the last of its section, or when its title starts
      with a required section name. */
  predicate Kept(n: Node, last: bool) {
    (n.kids == [] && !last) || Required(Title(n))
  }

  /** The dictionary of a section whose entries are at depth `d`. */
  function DictOf(ns: seq<Node>, d: nat): seq<Entry> {
    if ns == [] then []
    else
      var rest := DictOf(ns[1..], d);
      if d == 1 && !Kept(ns[0], |ns| == 1) then rest
      else
        var e := if ns[0].kids == [] then LeafEntry(ns[0].head)
                 else Entry(Title(ns[0]), Dict(DictOf(ns[0].kids, d + 1)));
        [e] + rest
  }

  // ----- printing

  /** Deeper lines are indented more; the steps need not be equal. */
  ghost predicate Deeper(ind: nat -> nat) {
    forall d: nat :: ind(d) < ind(d + 1)
  }

  function Line(ind: nat -> nat, d: nat, title: string): string {
    Spaces(ind(d)) + title
  }

  function PrintAll(ind: nat -> nat, ns: seq<Node>, d: nat): seq<string> {
    if ns == [] then []
    else [Line(ind, d, Title(ns[0]))] + (PrintAll(ind, ns[0].kids, d + 1) + PrintAll(ind, ns[1..], d))
  }

  lemma {:induction false} DeeperOrder(ind: nat -> nat, d: nat, e: nat)
    requires Deeper(ind) && d < e
    ensures ind(d) < ind(e) && e <= ind(e)
    decreases e
  {
    assert ind(e - 1) < ind(e - 1 + 1);
    if e - 1 > d {
      DeeperOrder(ind, d, e - 1);
    } else if d > 0 {
      DeeperOrder(ind, 0, d);
    }
  }

  lemma {:induction false} LStripSpaces(n: nat, t: string)
    ensures LStrip(Spaces(n) + t) == LStrip(t)
    decreases n
  {
    if n == 0 {
      assert Spaces(n) + t == t;
    } else {
      assert (Spaces(n) + t)[1..] == Spaces(n - 1) + t;
      LStripSpaces(n - 1, t);
    }
  }

  lemma LineShape(ind: nat -> nat, d: nat, t: string)
    requires t != "" && !White(t[0])
    ensures Indent(Line(ind, d, t)) == ind(d) && LStrip(Line(ind, d, t)) == t
  {
    LStripSpaces(ind(d), t);
  }

  lemma {:induction false} CutColonSpaces(n: nat, t: string)
    ensures CutColon(Spaces(n) + t) ==
            match CutColon(t) case None => None case Some((k, v)) => Some((Spaces(n) + k, v))
    decreases n
  {
    var s := Spaces(n) + t;
    if n == 0 {
      assert s == t;
      assert CutColon(t).Some? ==> Spaces(0) + CutColon(t).value.0 == CutColon(t).value.0;
    } else {
      assert s[1..] == Spaces(n - 1) + t && s[0] == ' ';
      CutColonSpaces(n - 1, t);
      if |s| >= 2 {
        assert s[..2][0] == ' ';
      }
      assert CutColon(t).Some? ==> [' '] + (Spaces(n - 1) + CutColon(t).value.0) == Spaces(n) + CutColon(t).value.0;
    }
  }

  /** The indentation does not matter for the key and value of a line. */
  lemma LeafLine(ind: nat -> nat, d: nat, t: string)
    ensures LeafCell(Line(ind, d, t)) == LeafCell(t)
  {
    CutColonSpaces(ind(d), t);
    LStripSpaces(ind(d), t);
    if CutColon(t).Some? {
      LStripSpaces(ind(d), CutColon(t).value.0);
    }
  }

  // ----- key and value of a line

  lemma {:induction false} CutNowhere(s: string)
    requires NoColonSpace(s)
    ensures CutColon(s) == None
  {
    if |s| >= 2 {
      assert s[..2] == [s[0], s[1]];
      CutNowhere(s[1..]);
    }
  }

  lemma {:induction false} CutAfterKey(k: string, v: string)
    requires NoColonSpace(k)
    ensures CutColon(k + (": " + v)) == Some((k, v))
  {
    var s := k + (": " + v);
    if k == [] {
      assert s == ": " + v && s[..2] == ": " && s[2..] == v;
    } else {
      assert s[..2] == [s[0], s[1]] && s[0] == k[0] && s[1] == if |k| > 1 then k[1] else ':';
      assert s[1..] == k[1..] + (": " + v);
      CutAfterKey(k[1..], v);
      assert [k[0]] + k[1..] == k;
    }
  }

  lemma StripStripped(s: string)
    requires Stripped(s)
    ensures LStrip(s) == s && RStrip(s) == s
  {
  }

  /** A line `key: value` is read as that key and value, one without a colon and space as a
      key without a value. */
  lemma LeafRead(h: Label)
    requires GoodLabel(h) && StartsClean(LabelText(h))
    ensures LeafCell(LabelText(h)) ==
            match h
            case Plain(t) => Cell(t, Nothing)
            case Pair(k, v) => Cell(k, Text(v))
  {
    hide CutColon;
    match h {
      case Plain(t) => CutNowhere(t);
      case Pair(k, v) =>
        CutAfterKey(k, v);
        StripStripped(v);
    }
  }

  predicate AllWhite(s: string) {
    forall i | 0 <= i < |s| :: White(s[i])
  }

  lemma {:induction false} LStripPad(a: string, t: string)
    requires AllWhite(a)
    ensures LStrip(a + t) == LStrip(t)
    decreases |a|
  {
    hide White;
    if a == [] {
      assert a + t == t;
    } else {
      assert (a + t)[1..] == a[1..] + t;
      LStripPad(a[1..], t);
    }
  }

  lemma {:induction false} RStripPad(t: string, b: string)
    requires AllWhite(b)
    ensures RStrip(t + b) == RStrip(t)
    decreases |b|
  {
    hide White;
    if b == [] {
      assert t + b == t;
    } else {
      var n := |b| - 1;
      assert (t + b)[..|t + b| - 1] == t + b[..n];
      RStripPad(t, b[..n]);
    }
  }

  /** White space around the value does not matter. */
  lemma ValuePadded(k: string, a: string, v: string, b: string)
    requires StartsClean(k) && NoColonSpace(k) && AllWhite(a) && AllWhite(b) && Stripped(v) && v != ""
    ensures LeafCell(k + (": " + (a + (v + b)))) == Cell(k, Text(v))
  {
    hide CutColon, RStrip;
    CutAfterKey(k, a + (v + b));
    LStripPad(a, v + b);
    assert (v + b)[0] == v[0];
    RStripPad(v, b);
    StripStripped(v);
  }

  /** The characters that Python strips. */
  lemma WhiteChars(c: char)
    ensures White(c) <==>
            || c in "\t\n\U{B}\U{C}\r\U{1C}\U{1D}\U{1E}\U{1F} \U{85}\U{A0}\U{1680}\U{2028}\U{2029}"
            || c in "\U{202F}\U{205F}\U{3000}\U{2000}\U{2001}\U{2002}\U{2003}\U{2004}\U{2005}\U{2006}"
            || c in "\U{2007}\U{2008}\U{2009}\U{200A}"
  {
  }

  const SECTIONS: set<string> := {"Array:", "unassigned", "HBA Drives", "array", "Controller Status", "Cache Status",
                                  "Battery/Capacitor Status", "Unassigned", "Array"}

  lemma RequiredNames()
    ensures forall r :: r in REQUIRED <==> r in SECTIONS
  {
    assert forall i | 0 <= i < |REQUIRED| :: REQUIRED[i] in SECTIONS;
    assert forall i | 0 <= i < |REQUIRED| :: REQUIRED[i] in REQUIRED;
  }

  /** The titles of sections that are kept. */
  lemma RequiredTitles(t: string)
    ensures Required(t) <==> exists r | r in SECTIONS :: r <= t
  {
    RequiredNames();
    hide REQUIRED, SECTIONS;
  }

  lemma TitleClean(t: string)
    requires GoodTitle(t)
    ensures StartsClean(t)
  {
  }

  // ----- what cells in a store stand for

  predicate DenotesOne(store: Store, lo: nat, c: Cell, e: Entry)
    decreases e
  {
    c.key == e.key &&
    match e.item
    case NoValue => c.ref == Nothing
    case Str(t) => c.ref == Text(t)
    case Dict(es) => c.ref.Sub? && lo <= c.ref.id < |store| && Denotes(store, lo, store[c.ref.id], es)
  }

  predicate Denotes(store: Store, lo: nat, cells: seq<Cell>, es: seq<Entry>)
    decreases es
  {
    |cells| == |es| && forall i | 0 <= i < |es| :: DenotesOne(store, lo, cells[i], es[i])
  }

  lemma {:induction false} FrameOne(a: Store, b: Store, hi: nat, lo: nat, c: Cell, e: Entry)
    requires lo <= hi && |a| <= |b| && (forall i | hi <= i < |a| :: a[i] == b[i]) && DenotesOne(a, hi, c, e)
    ensures DenotesOne(b, lo, c, e)
    decreases e
  {
    if e.item.Dict? {
      FrameAll(a, b, hi, lo, a[c.ref.id], e.item.entries);
    }
  }

  /** Dictionaries below `hi` do not matter for what the cells stand for. */
  lemma {:induction false} FrameAll(a: Store, b: Store, hi: nat, lo: nat, cells: seq<Cell>, es: seq<Entry>)
    requires lo <= hi && |a| <= |b| && (forall i | hi <= i < |a| :: a[i] == b[i]) && Denotes(a, hi, cells, es)
    ensures Denotes(b, lo, cells, es)
    decreases es
  {
    forall i | 0 <= i < |es| ensures DenotesOne(b, lo, cells[i], es[i]) {
      FrameOne(a, b, hi, lo, cells[i], es[i]);
    }
  }

  // ----- running over printed lines

  function Head(lines: seq<string>): string {
    if lines == [] then "" else lines[0]
  }

  lemma RunCons(top: nat, second: nat, st: State, line: string, rest: seq<string>)
    requires Sane(st)
    ensures RunLines(top, second, st, [line] + rest) ==
            match StepLine(top, second, st, line, Head(rest))
            case None => None
            case Some(s) => RunLines(top, second, s, rest)
  {
    hide StepLine;
    assert ([line] + rest)[1..] == rest;
    assert Following([line] + rest) == Head(rest);
  }

  lemma StepSkipped(ind: nat -> nat, d: nat, title: string, st: State, nxt: string)
    requires Deeper(ind) && GoodTitle(title) && d >= 2 && Sane(st) && !st.keep
    ensures StepLine(ind(0), ind(1), st, Line(ind, d, title), nxt) == Some(st)
  {
    hide Indent, Line, LeafCell, HasKey;
    LineShape(ind, d, title);
    DeeperOrder(ind, 1, d);
    DeeperOrder(ind, 0, 1);
  }

  /** A skipped section leaves the state alone. */
  lemma {:induction false} RunSkipped(ind: nat -> nat, ns: seq<Node>, d: nat, st: State, rest: seq<string>)
    requires Deeper(ind) && Shaped(ns) && d >= 2 && Sane(st) && !st.keep
    ensures RunLines(ind(0), ind(1), st, PrintAll(ind, ns, d) + rest) == RunLines(ind(0), ind(1), st, rest)
    decreases ns
  {
    hide RunLines, StepLine, Shaped, Line, Sane, PrintAll, GoodTitle;
    if ns == [] {
      PrintNone(ind, d, rest);
    } else {
      var after := PrintAll(ind, ns[1..], d) + rest;
      var below := PrintAll(ind, ns[0].kids, d + 1) + after;
      ShapedTail(ns);
      PrintCons(ind, ns, d, rest);
      RunCons(ind(0), ind(1), st, Line(ind, d, Title(ns[0])), below);
      StepSkipped(ind, d, Title(ns[0]), st, Head(below));
      RunSkipped(ind, ns[0].kids, d + 1, st, after);
      RunSkipped(ind, ns[1..], d, st, rest);
    }
  }

  lemma ShapedTail(ns: seq<Node>)
    requires Shaped(ns) && ns != []
    ensures Shaped(ns[1..]) && GoodTitle(Title(ns[0])) && Shaped(ns[0].kids)
    ensures ns[0].kids == [] ==> GoodLabel(ns[0].head)
    ensures forall n | n in ns[1..] :: KeyOf(n) != KeyOf(ns[0])
  {
    hide GoodTitle, KeyOf;
    assert ns[0] in ns;
    forall n | n in ns[1..] ensures KeyOf(n) != KeyOf(ns[0]) {
      var i :| 0 <= i < |ns| - 1 && ns[1..][i] == n;
      assert ns[i + 1] == n;
    }
  }

  /** What follows the printed section fits its depth: nothing or a line of the same
      indentation at the top, something less indented below. */
  predicate Ends(ind: nat -> nat, d: nat, rest: seq<string>) {
    if d == 0 then Indent(Head(rest)) <= ind(0) else Indent(Head(rest)) < ind(d)
  }

  lemma HeadPrinted(ind: nat -> nat, ns: seq<Node>, d: nat, more: seq<string>)
    requires ns != [] && GoodTitle(Title(ns[0]))
    ensures Indent(Head(PrintAll(ind, ns, d) + more)) == ind(d)
  {
    LineShape(ind, d, Title(ns[0]));
  }

  lemma NextIndent(ind: nat -> nat, ns: seq<Node>, d: nat, rest: seq<string>)
    requires Deeper(ind) && Shaped(ns) && ns != [] && Ends(ind, d, rest)
    ensures var next := Indent(Head(PrintAll(ind, ns[0].kids, d + 1) + (PrintAll(ind, ns[1..], d) + rest)));
            if ns[0].kids != [] then next == ind(d + 1)
            else if |ns| > 1 then next == ind(d)
            else next <= ind(d) && (d > 0 ==> next < ind(d))
    ensures Ends(ind, d + 1, PrintAll(ind, ns[1..], d) + rest)
  {
    hide Indent, PrintAll, Shaped, GoodTitle;
    var after := PrintAll(ind, ns[1..], d) + rest;
    DeeperOrder(ind, d, d + 1);
    ShapedTail(ns);
    IndentEmpty();
    if |ns| > 1 {
      ShapedTail(ns[1..]);
      HeadPrinted(ind, ns[1..], d, rest);
    } else {
      assert ns[1..] == [];
      PrintNone(ind, d, rest);
    }
    if ns[0].kids != [] {
      ShapedTail(ns[0].kids);
      HeadPrinted(ind, ns[0].kids, d + 1, after);
    } else {
      PrintNone(ind, d + 1, after);
    }
  }

  lemma PrintNone(ind: nat -> nat, d: nat, rest: seq<string>)
    ensures PrintAll(ind, [], d) + rest == rest
  {
  }

  lemma IndentEmpty()
    ensures Indent("") == 0
  {
  }

  /** Whether the lines at depth `d` are kept. */
  predicate Live(d: nat, n: Node, last: bool) {
    d == 1 ==> Kept(n, last)
  }

  lemma KeepsRight(ind: nat -> nat, ns: seq<Node>, d: nat, keep: bool, nxt: string)
    requires Deeper(ind) && ns != [] && GoodTitle(Title(ns[0])) && (d >= 2 ==> keep)
    requires if ns[0].kids != [] then Indent(nxt) == ind(d + 1)
             else if |ns| > 1 then Indent(nxt) == ind(d)
             else d > 0 ==> Indent(nxt) < ind(d)
    ensures Keeps(ind(0), ind(1), keep, Line(ind, d, Title(ns[0])), nxt) == Live(d, ns[0], |ns| == 1)
  {
    hide Indent, Line, Required;
    LineShape(ind, d, Title(ns[0]));
    DeeperOrder(ind, d, d + 1);
    DeeperOrder(ind, 0, 1);
    if d >= 2 {
      DeeperOrder(ind, 1, d);
    }
  }

  lemma {:induction false} PutNew(d: seq<Cell>, key: string, ref: Ref)
    requires !HasKey(d, key)
    ensures Put(d, key, ref) == d + [Cell(key, ref)]
  {
    if d != [] {
      assert d[0] in d;
      assert !HasKey(d[1..], key);
      PutNew(d[1..], key, ref);
    }
  }

  /** The effect of a line that starts no section. */
  function AfterLeaf(st: State, p: nat, c: Cell): State
    requires p < |st.store|
  {
    State(st.store[p := st.store[p] + [c]], st.ptrs, true)
  }

  /** The effect of a line that starts a section at indentation `next`. */
  function AfterSection(st: State, p: nat, title: string, next: nat): State
    requires p < |st.store|
  {
    State(st.store[p := st.store[p] + [Cell(title, Sub(|st.store|))]] + [[]], st.ptrs[next := |st.store|], true)
  }

  lemma StepRight(ind: nat -> nat, ns: seq<Node>, d: nat, st: State, rest: seq<string>)
    requires Deeper(ind) && Shaped(ns) && ns != [] && Ends(ind, d, rest) && (d >= 2 ==> st.keep)
    requires Sane(st) && ind(d) in st.ptrs && !HasKey(st.store[st.ptrs[ind(d)]], KeyOf(ns[0]))
    ensures var nxt := Head(PrintAll(ind, ns[0].kids, d + 1) + (PrintAll(ind, ns[1..], d) + rest));
            var p := st.ptrs[ind(d)];
            StepLine(ind(0), ind(1), st, Line(ind, d, Title(ns[0])), nxt) ==
            Some(if !Live(d, ns[0], |ns| == 1) then st.(keep := false)
                 else if ns[0].kids == [] then AfterLeaf(st, p, LeafCell(Title(ns[0])))
                 else AfterSection(st, p, Title(ns[0]), ind(d + 1)))
  {
    hide Indent, Line, DistinctKeys, Keeps, LeafCell, Live, HasKey, PrintAll;
    var nxt := Head(PrintAll(ind, ns[0].kids, d + 1) + (PrintAll(ind, ns[1..], d) + rest));
    NextIndent(ind, ns, d, rest);
    ShapedTail(ns);
    KeepsRight(ind, ns, d, st.keep, nxt);
    LineShape(ind, d, Title(ns[0]));
    LeafLine(ind, d, Title(ns[0]));
    DeeperOrder(ind, d, d + 1);
    if ns[0].kids == [] {
      var c := LeafCell(Title(ns[0]));
      LeafRead(ns[0].head);
      PutNew(st.store[st.ptrs[ind(d)]], c.key, c.ref);
    }
  }

  /** The keys of the section are not in the dictionary yet. */
  predicate NewKeys(d: seq<Cell>, ns: seq<Node>) {
    forall n | n in ns :: !HasKey(d, KeyOf(n))
  }

  lemma NewKeysTail(d: seq<Cell>, ns: seq<Node>, c: Cell)
    requires Shaped(ns) && ns != [] && NewKeys(d, ns) && c.key == KeyOf(ns[0])
    ensures NewKeys(d + [c], ns[1..])
  {
    hide Shaped, KeyOf;
    ShapedTail(ns);
  }

  /** `t` is `s` with `cells` added to dictionary `p` and further dictionaries. */
  ghost predicate Extends(s: State, t: State, p: nat, cells: seq<Cell>, indent: nat) {
    && Sane(t) && p < |s.store| <= |t.store|
    && (forall i | 0 <= i < |s.store| && i != p :: t.store[i] == s.store[i])
    && t.store[p] == s.store[p] + cells
    && (forall i | i in s.ptrs && i <= indent :: i in t.ptrs && t.ptrs[i] == s.ptrs[i])
  }

  lemma AddLeaf(st: State, p: nat, c: Cell, out: State, more: seq<Cell>, e: Entry, es: seq<Entry>, indent: nat)
    requires Sane(st) && p < |st.store| && Extends(AfterLeaf(st, p, c), out, p, more, indent)
    requires Denotes(out.store, |st.store|, more, es) && !e.item.Dict? && DenotesOne(out.store, |st.store|, c, e)
    ensures Extends(st, out, p, [c] + more, indent) && Denotes(out.store, |st.store|, [c] + more, [e] + es)
  {
    assert st.store[p] + [c] + more == st.store[p] + ([c] + more);
  }

  lemma AddSection(st: State, p: nat, title: string, next: nat, mid: State, sub: seq<Cell>, out: State, more: seq<Cell>,
                   subs: seq<Entry>, es: seq<Entry>, indent: nat)
    requires Sane(st) && p < |st.store| && indent < next
    requires Extends(AfterSection(st, p, title, next), mid, |st.store|, sub, next)
    requires Extends(mid, out, p, more, indent)
    requires Denotes(mid.store, |st.store| + 1, sub, subs) && Denotes(out.store, |mid.store|, more, es)
    ensures var c := Cell(title, Sub(|st.store|));
            && Extends(st, out, p, [c] + more, indent)
            && Denotes(out.store, |st.store|, [c] + more, [Entry(title, Dict(subs))] + es)
  {
    hide Sane;
    var q := |st.store|;
    var c := Cell(title, Sub(q));
    assert [] + sub == sub && out.store[q] == sub;
    assert st.store[p] + [c] + more == st.store[p] + ([c] + more);
    FrameAll(mid.store, out.store, q + 1, q, sub, subs);
    FrameAll(out.store, out.store, |mid.store|, q, more, es);
    assert DenotesOne(out.store, q, c, Entry(title, Dict(subs)));
  }

  /** The printed lines of a section, read with its dictionary at hand, add exactly the
      entries of the section to that dictionary. */
  lemma {:induction false} RunForest(ind: nat -> nat, ns: seq<Node>, d: nat, st: State, rest: seq<string>)
    returns (out: State, cells: seq<Cell>)
    requires Deeper(ind) && Shaped(ns) && Ends(ind, d, rest) && (d >= 2 ==> st.keep)
    requires Sane(st) && ind(d) in st.ptrs && NewKeys(st.store[st.ptrs[ind(d)]], ns)
    ensures Extends(st, out, st.ptrs[ind(d)], cells, ind(d))
    ensures RunLines(ind(0), ind(1), st, PrintAll(ind, ns, d) + rest) == RunLines(ind(0), ind(1), out, rest)
    ensures Denotes(out.store, |st.store|, cells, DictOf(ns, d))
    ensures d >= 2 ==> out.keep
    decreases ns
  {
    hide RunLines, StepLine, Line, KeyOf, DistinctKeys, GoodTitle, HasKey, Kept, LeafCell, Ends, PrintAll, NewKeys,
         Shaped;
    var p := st.ptrs[ind(d)];
    if ns == [] {
      PrintNone(ind, d, rest);
      assert st.store[p] + [] == st.store[p];
      return st, [];
    }
    var n, tail := ns[0], ns[1..];
    var after := PrintAll(ind, tail, d) + rest;
    var below := PrintAll(ind, n.kids, d + 1) + after;
    ShapedTail(ns);
    NextIndent(ind, ns, d, rest);
    FirstNew(st.store[p], ns);
    PrintCons(ind, ns, d, rest);
    StepRight(ind, ns, d, st, rest);
    RunCons(ind(0), ind(1), st, Line(ind, d, Title(n)), below);
    DeeperOrder(ind, d, d + 1);
    if !Live(d, n, |ns| == 1) {
      var s := st.(keep := false);
      RunSkipped(ind, n.kids, d + 1, s, after);
      NewKeysRest(st.store[p], ns);
      out, cells := RunForest(ind, tail, d, s, rest);
    } else if n.kids == [] {
      out, cells := LeafCase(ind, ns, d, st, rest);
    } else {
      out, cells := SectionCase(ind, ns, d, st, rest);
    }
  }

  lemma FirstNew(d: seq<Cell>, ns: seq<Node>)
    requires NewKeys(d, ns) && ns != []
    ensures !HasKey(d, KeyOf(ns[0]))
  {
    assert ns[0] in ns;
  }

  lemma NewKeysRest(d: seq<Cell>, ns: seq<Node>)
    requires NewKeys(d, ns) && ns != []
    ensures NewKeys(d, ns[1..])
  {
  }

  lemma PrintCons(ind: nat -> nat, ns: seq<Node>, d: nat, rest: seq<string>)
    requires ns != []
    ensures PrintAll(ind, ns, d) + rest ==
            [Line(ind, d, Title(ns[0]))] + (PrintAll(ind, ns[0].kids, d + 1) + (PrintAll(ind, ns[1..], d) + rest))
  {
  }

  lemma {:induction false} LeafCase(ind: nat -> nat, ns: seq<Node>, d: nat, st: State, rest: seq<string>)
    returns (out: State, cells: seq<Cell>)
    requires Deeper(ind) && Shaped(ns) && Ends(ind, d, rest)
    requires Sane(st) && ind(d) in st.ptrs && NewKeys(st.store[st.ptrs[ind(d)]], ns)
    requires ns != [] && ns[0].kids == [] && Live(d, ns[0], |ns| == 1)
    ensures Extends(st, out, st.ptrs[ind(d)], cells, ind(d))
    ensures var s := AfterLeaf(st, st.ptrs[ind(d)], LeafCell(Title(ns[0])));
            && Sane(s)
            && RunLines(ind(0), ind(1), s, PrintAll(ind, ns[0].kids, d + 1) + (PrintAll(ind, ns[1..], d) + rest)) ==
               RunLines(ind(0), ind(1), out, rest)
    ensures Denotes(out.store, |st.store|, cells, DictOf(ns, d))
    ensures d >= 2 ==> out.keep
    decreases ns, 0
  {
    hide RunLines, DistinctKeys, GoodTitle, HasKey, Kept, LeafCell, Ends, PrintAll, NewKeys, Shaped;
    var p, c := st.ptrs[ind(d)], LeafCell(Title(ns[0]));
    var s := AfterLeaf(st, p, c);
    ShapedTail(ns);
    PrintNone(ind, d + 1, PrintAll(ind, ns[1..], d) + rest);
    TitleClean(Title(ns[0]));
    LeafRead(ns[0].head);
    NewKeysTail(st.store[p], ns, c);
    var more;
    out, more := RunForest(ind, ns[1..], d, s, rest);
    cells := [c] + more;
    AddLeaf(st, p, c, out, more, LeafEntry(ns[0].head), DictOf(ns[1..], d), ind(d));
  }

  lemma {:induction false} SectionCase(ind: nat -> nat, ns: seq<Node>, d: nat, st: State, rest: seq<string>)
    returns (out: State, cells: seq<Cell>)
    requires Deeper(ind) && Shaped(ns) && Ends(ind, d, rest)
    requires Sane(st) && ind(d) in st.ptrs && NewKeys(st.store[st.ptrs[ind(d)]], ns)
    requires ns != [] && ns[0].kids != [] && Live(d, ns[0], |ns| == 1)
    ensures Extends(st, out, st.ptrs[ind(d)], cells, ind(d))
    ensures var s := AfterSection(st, st.ptrs[ind(d)], Title(ns[0]), ind(d + 1));
            && Sane(s)
            && RunLines(ind(0), ind(1), s, PrintAll(ind, ns[0].kids, d + 1) + (PrintAll(ind, ns[1..], d) + rest)) ==
               RunLines(ind(0), ind(1), out, rest)
    ensures Denotes(out.store, |st.store|, cells, DictOf(ns, d))
    ensures d >= 2 ==> out.keep
    decreases ns, 0
  {
    hide RunLines, GoodTitle, Kept, Ends, PrintAll, NewKeys, Shaped, Denotes, AfterSection, Extends, Sane;
    var p, q, n := st.ptrs[ind(d)], |st.store|, ns[0];
    assert p < q by { SanePointer(st, ind(d)); }
    var c := Cell(Title(n), Sub(q));
    var s := AfterSection(st, p, Title(n), ind(d + 1));
    SectionStart(st, p, Title(n), ind(d + 1));
    ShapedTail(ns);
    NextIndent(ind, ns, d, rest);
    DeeperOrder(ind, d, d + 1);
    assert NewKeys([], n.kids) by { NoKeys(n.kids); }
    var mid, sub := RunForest(ind, n.kids, d + 1, s, PrintAll(ind, ns[1..], d) + rest);
    NewKeysTail(st.store[p], ns, c);
    SectionMiddle(st, p, Title(n), ind(d + 1), mid, sub, ind(d));
    var more;
    out, more := RunForest(ind, ns[1..], d, mid, rest);
    cells := [c] + more;
    AddSection(st, p, Title(n), ind(d + 1), mid, sub, out, more, DictOf(n.kids, d + 1), DictOf(ns[1..], d), ind(d));
  }

  lemma SanePointer(st: State, i: nat)
    requires Sane(st) && i in st.ptrs
    ensures st.ptrs[i] < |st.store|
  {
  }

  lemma SectionStart(st: State, p: nat, title: string, next: nat)
    requires Sane(st) && p < |st.store|
    ensures var s, q := AfterSection(st, p, title, next), |st.store|;
            Sane(s) && s.keep && |s.store| == q + 1 && next in s.ptrs && s.ptrs[next] == q && s.store[q] == []
  {
  }

  lemma SectionMiddle(st: State, p: nat, title: string, next: nat, mid: State, sub: seq<Cell>, indent: nat)
    requires Sane(st) && indent in st.ptrs && st.ptrs[indent] == p && indent < next
    requires Extends(AfterSection(st, p, title, next), mid, |st.store|, sub, next)
    ensures Sane(mid) && |st.store| < |mid.store| && indent in mid.ptrs && mid.ptrs[indent] == p
    ensures mid.store[p] == st.store[p] + [Cell(title, Sub(|st.store|))]
  {
  }

  lemma NoKeys(ns: seq<Node>)
    ensures NewKeys([], ns)
  {
  }

  // ----- the lines of a listing

  /** A line that is neither empty nor treated specially. */
  predicate Ordinary(l: string) {
    && l != "" && Without(l, '\n')
    && !StartsWith(l, WARNING) && !StartsWith(l, NOTICE)
    && !StartsWith(l, NOTE) && !StartsWith(LStrip(l), MIRROR)
  }

  lemma LineOrdinary(ind: nat -> nat, d: nat, t: string)
    requires GoodTitle(t)
    ensures Ordinary(Line(ind, d, t))
  {
    hide Indent, LStrip;
    LineShape(ind, d, t);
    var l := Line(ind, d, t);
    if ind(d) == 0 {
      assert l == t;
    } else {
      assert l[0] == ' ';
    }
  }

  lemma {:induction false} PrintedOrdinary(ind: nat -> nat, ns: seq<Node>, d: nat)
    requires Shaped(ns)
    ensures forall l | l in PrintAll(ind, ns, d) :: Ordinary(l)
    decreases ns
  {
    hide Ordinary, Line, GoodTitle;
    if ns != [] {
      ShapedTail(ns);
      LineOrdinary(ind, d, Title(ns[0]));
      PrintedOrdinary(ind, ns[0].kids, d + 1);
      PrintedOrdinary(ind, ns[1..], d);
    }
  }

  lemma {:induction false} SanitizeOrdinary(ls: seq<string>, i: nat, acc: seq<string>)
    requires i <= |ls| && forall l | l in ls :: Ordinary(l)
    ensures Sanitize(ls, i, acc) == Some(acc + ls[i..])
    decreases |ls| - i
  {
    hide LStrip;
    if i == |ls| {
      assert acc + ls[i..] == acc;
    } else {
      assert ls[i] in ls && Ordinary(ls[i]);
      SanitizeOrdinary(ls, i + 1, acc + [ls[i]]);
      assert acc + [ls[i]] + ls[i + 1..] == acc + ls[i..];
    }
  }

  lemma {:induction false} FixOrdinary(ls: seq<string>)
    requires forall l | l in ls :: Ordinary(l)
    ensures FixLines(None, ls) == ls
    decreases |ls|
  {
    hide LStrip;
    if ls != [] {
      assert ls[0] in ls && Ordinary(ls[0]);
      FixOrdinary(ls[1..]);
    }
  }

  // ----- the two outer levels

  /** `n` is the smallest indentation above `lo` in the lines. */
  predicate IsLeast(ls: seq<string>, lo: int, n: nat) {
    lo < n && (exists l | l in ls :: Indent(l) == n) && forall l | l in ls :: Indent(l) <= lo || n <= Indent(l)
  }

  lemma {:induction false} LeastIs(ls: seq<string>, lo: int)
    ensures match LeastIndent(ls, lo)
            case None => forall l | l in ls :: Indent(l) <= lo
            case Some(n) => IsLeast(ls, lo, n)
    decreases |ls|
  {
    hide Indent;
    if ls != [] {
      LeastIs(ls[1..], lo);
      var r := LeastIndent(ls, lo);
      assert ls[0] in ls;
      if r.Some? && r != Some(Indent(ls[0])) {
        var l :| l in ls[1..] && Indent(l) == r.value;
        assert l in ls;
      }
    }
  }

  lemma LeastUnique(ls: seq<string>, lo: int, n: nat)
    requires IsLeast(ls, lo, n)
    ensures LeastIndent(ls, lo) == Some(n)
  {
    hide Indent;
    LeastIs(ls, lo);
  }

  lemma {:induction false} PrintedIndents(ind: nat -> nat, ns: seq<Node>, d: nat)
    requires Deeper(ind) && Shaped(ns)
    ensures forall l | l in PrintAll(ind, ns, d) :: Indent(l) == ind(d) || ind(d + 1) <= Indent(l)
    ensures ns != [] ==> exists l | l in PrintAll(ind, ns, d) :: Indent(l) == ind(d)
    ensures (exists n | n in ns :: n.kids != []) ==> exists l | l in PrintAll(ind, ns, d) :: Indent(l) == ind(d + 1)
    decreases ns
  {
    hide Indent;
    if ns != [] {
      ShapedTail(ns);
      var line := Line(ind, d, Title(ns[0]));
      LineShape(ind, d, Title(ns[0]));
      PrintedIndents(ind, ns[0].kids, d + 1);
      PrintedIndents(ind, ns[1..], d);
      DeeperOrder(ind, d + 1, d + 2);
      assert line in PrintAll(ind, ns, d);
      if ns[0].kids != [] {
        var l :| l in PrintAll(ind, ns[0].kids, d + 1) && Indent(l) == ind(d + 1);
        assert l in PrintAll(ind, ns, d);
      } else if exists n | n in ns :: n.kids != [] {
        var n :| n in ns && n.kids != [];
        assert n in ns[1..];
        var l :| l in PrintAll(ind, ns[1..], d) && Indent(l) == ind(d + 1);
        assert l in PrintAll(ind, ns, d);
      }
    }
  }

  lemma TwoLevels(ind: nat -> nat, ns: seq<Node>)
    requires Deeper(ind) && Shaped(ns) && exists n | n in ns :: n.kids != []
    ensures LeastIndent(PrintAll(ind, ns, 0), -1) == Some(ind(0))
    ensures LeastIndent(PrintAll(ind, ns, 0), ind(0)) == Some(ind(1))
  {
    hide Indent, PrintAll, Shaped;
    PrintedIndents(ind, ns, 0);
    DeeperOrder(ind, 0, 1);
    LeastUnique(PrintAll(ind, ns, 0), -1, ind(0));
    LeastUnique(PrintAll(ind, ns, 0), ind(0), ind(1));
  }

  // ----- the theorem

  /** Parsing the listing of any tree with at least two levels and distinct sibling keys, in
      any consistent indentation, gives the nested dictionary of the tree, in which of the
      second level exactly the kept entries are left. */
  lemma ListingReadBack(ind: nat -> nat, ns: seq<Node>)
    requires Deeper(ind) && Shaped(ns) && exists n | n in ns :: n.kids != []
    ensures var r := Parse(Join(PrintAll(ind, ns, 0), '\n'));
            r.Some? && |r.value| > 0 && Denotes(r.value, 0, r.value[0], DictOf(ns, 0))
  {
    hide Sanitize, FixLines, LeastIndent, RunLines, PrintAll, Shaped, DictOf, Ordinary, Split;
    var ls := PrintAll(ind, ns, 0);
    PrintedOrdinary(ind, ns, 0);
    assert ls != [] by { TwoLevels(ind, ns); LeastNone(); }
    assert forall l | l in ls :: Without(l, '\n') by { OrdinaryLines(ls); }
    SplitJoin(ls, '\n');
    SanitizeOrdinary(ls, 0, []);
    assert [] + ls[0..] == ls;
    FixOrdinary(ls);
    TwoLevels(ind, ns);
    var st := State([[]], map[ind(0) := 0], false);
    NoKeys(ns);
    var out, cells := RunForest(ind, ns, 0, st, []);
    assert ls + [] == ls;
    assert RunLines(ind(0), ind(1), out, []) == Some(out) by { RunNone(ind(0), ind(1), out); }
    assert out.store[0] == cells;
    FrameAll(out.store, out.store, 1, 0, cells, DictOf(ns, 0));
  }

  lemma {:induction false} FlatIndents(ind: nat -> nat, ns: seq<Node>)
    requires Shaped(ns) && forall n | n in ns :: n.kids == []
    ensures forall l | l in PrintAll(ind, ns, 0) :: Indent(l) == ind(0)
    decreases ns
  {
    hide Indent;
    if ns != [] {
      ShapedTail(ns);
      assert ns[0] in ns;
      LineShape(ind, 0, Title(ns[0]));
      assert PrintAll(ind, ns[0].kids, 1) == [];
      FlatIndents(ind, ns[1..]);
    }
  }

  /** A listing without a second level makes the parser fail: it unpacks two indentations. */
  lemma FlatListingFails(ind: nat -> nat, ns: seq<Node>)
    requires Shaped(ns) && forall n | n in ns :: n.kids == []
    ensures Parse(Join(PrintAll(ind, ns, 0), '\n')) == None
  {
    hide Sanitize, FixLines, LeastIndent, RunLines, PrintAll, Shaped, Ordinary, Split, Indent;
    var ls := PrintAll(ind, ns, 0);
    PrintedOrdinary(ind, ns, 0);
    FlatIndents(ind, ns);
    if ls == [] {
      EmptyListingFails();
    } else {
      assert forall l | l in ls :: Without(l, '\n') by { OrdinaryLines(ls); }
      SplitJoin(ls, '\n');
      SanitizeOrdinary(ls, 0, []);
      assert [] + ls[0..] == ls;
      FixOrdinary(ls);
      assert ls[0] in ls;
      LeastIs(ls, -1);
      LeastIs(ls, ind(0));
    }
  }

  lemma EmptyListingFails()
    ensures Parse(Join([], '\n')) == None
  {
    assert Split("", '\n') == [""];
    assert Sanitize([""], 1, []) == Some([]);
  }

  lemma LeastNone()
    ensures LeastIndent([], -1) == None
  {
  }

  lemma OrdinaryLines(ls: seq<string>)
    requires forall l | l in ls :: Ordinary(l)
    ensures forall l | l in ls :: Without(l, '\n')
  {
  }

  lemma RunNone(top: nat, second: nat, st: State)
    requires Sane(st)
    ensures RunLines(top, second, st, []) == Some(st)
  {
  }
  // ----- listings that make the parser raise

  lemma {:induction false} PrintBoth(ind: nat -> nat, ns: seq<Node>, more: seq<Node>, d: nat)
    ensures PrintAll(ind, ns + more, d) == PrintAll(ind, ns, d) + PrintAll(ind, more, d)
    decreases ns
  {
    hide Line;
    if ns == [] {
      assert ns + more == more;
    } else {
      assert (ns + more)[1..] == ns[1..] + more;
      PrintBoth(ind, ns[1..], more, d);
      Associative([Line(ind, d, Title(ns[0]))], PrintAll(ind, ns[0].kids, d + 1) + PrintAll(ind, ns[1..], d),
                  PrintAll(ind, more, d));
      Associative(PrintAll(ind, ns[0].kids, d + 1), PrintAll(ind, ns[1..], d), PrintAll(ind, more, d));
    }
  }

  /** Every entry of the top level is in its dictionary. */
  lemma {:induction false} TopEntry(ns: seq<Node>, n: Node)
    requires n in ns
    ensures exists e | e in DictOf(ns, 0) :: e.key == KeyOf(n)
    decreases ns
  {
    var rest := DictOf(ns[1..], 0);
    if n == ns[0] {
      assert DictOf(ns, 0)[0].key == KeyOf(n);
    } else {
      TopEntry(ns[1..], n);
      var e :| e in rest && e.key == KeyOf(n);
      assert e in DictOf(ns, 0);
    }
  }

  lemma DenotedKey(store: Store, lo: nat, cells: seq<Cell>, es: seq<Entry>, key: string)
    requires Denotes(store, lo, cells, es) && exists e | e in es :: e.key == key
    ensures HasKey(cells, key)
  {
    var e :| e in es && e.key == key;
    var i :| 0 <= i < |es| && es[i] == e;
    assert DenotesOne(store, lo, cells[i], es[i]) && cells[i] in cells;
  }

  lemma RepeatRaises(ind: nat -> nat, st: State, m: Node, rest: seq<string>)
    requires Deeper(ind) && Shaped([m]) && m.kids != [] && Sane(st)
    requires ind(0) in st.ptrs && HasKey(st.store[st.ptrs[ind(0)]], Title(m))
    ensures RunLines(ind(0), ind(1), st, PrintAll(ind, [m], 0) + rest) == None
  {
    hide RunLines, Line, DistinctKeys, GoodTitle, HasKey, PrintAll, Indent, Required, LeafCell;
    ShapedTail([m]);
    ShapedTail(m.kids);
    PrintCons(ind, [m], 0, rest);
    var below := PrintAll(ind, m.kids, 1) + (PrintAll(ind, [m][1..], 0) + rest);
    RunCons(ind(0), ind(1), st, Line(ind, 0, Title(m)), below);
    TitleClean(Title(m));
    LineShape(ind, 0, Title(m));
    HeadPrinted(ind, m.kids, 1, PrintAll(ind, [m][1..], 0) + rest);
    DeeperOrder(ind, 0, 1);
  }

  /** A section that repeats the title of an earlier top-level section makes the parser
      raise, wherever in the listing they stand. */
  lemma DuplicateSectionRaises(ind: nat -> nat, ns: seq<Node>, m: Node, more: seq<Node>)
    requires Deeper(ind) && Shaped(ns) && Shaped([m]) && Shaped(more) && m.kids != []
    requires exists n | n in ns :: n.kids != [] && Title(n) == Title(m)
    ensures Parse(Join(PrintAll(ind, ns + ([m] + more), 0), '\n')) == None
  {
    hide Sanitize, FixLines, LeastIndent, RunLines, PrintAll, Shaped, DictOf, Ordinary, Split, Indent, HasKey;
    var ls := PrintAll(ind, ns + ([m] + more), 0);
    var (a, b, c) := (PrintAll(ind, ns, 0), PrintAll(ind, [m], 0), PrintAll(ind, more, 0));
    PrintBoth(ind, ns, [m] + more, 0);
    PrintBoth(ind, [m], more, 0);
    assert ls == a + (b + c);
    PrintedOrdinary(ind, ns, 0);
    PrintedOrdinary(ind, [m], 0);
    PrintedOrdinary(ind, more, 0);
    assert forall l | l in ls :: l in a || l in b || l in c;
    LevelsOfAll(ind, ns, [m], more);
    assert ls != [] by { LeastNone(); }
    ParseOrdinary(ls);
    var n :| n in ns && n.kids != [] && Title(n) == Title(m);
    var st := State([[]], map[ind(0) := 0], false);
    NoKeys(ns);
    FollowsTop(ind, m, c);
    var out, cells := RunForest(ind, ns, 0, st, b + c);
    TopEntry(ns, n);
    DenotedKey(out.store, 1, cells, DictOf(ns, 0), Title(m));
    assert [] + cells == cells && out.store[0] == cells;
    RepeatRaises(ind, out, m, c);
  }

  lemma FollowsTop(ind: nat -> nat, m: Node, rest: seq<string>)
    requires Shaped([m])
    ensures Ends(ind, 0, PrintAll(ind, [m], 0) + rest)
  {
    hide Indent, PrintAll;
    ShapedTail([m]);
    HeadPrinted(ind, [m], 0, rest);
  }

  /** Parsing ordinary lines with two levels is running over them. */
  lemma ParseOrdinary(ls: seq<string>)
    requires ls != [] && forall l | l in ls :: Ordinary(l)
    ensures Parse(Join(ls, '\n')) == ParseLines(ls)
  {
    hide Sanitize, FixLines, ParseLines, Ordinary, Split;
    assert forall l | l in ls :: Without(l, '\n') by { OrdinaryLines(ls); }
    SplitJoin(ls, '\n');
    SanitizeOrdinary(ls, 0, []);
    assert [] + ls[0..] == ls;
    FixOrdinary(ls);
  }

  lemma LevelsOfAll(ind: nat -> nat, ns: seq<Node>, ms: seq<Node>, more: seq<Node>)
    requires Deeper(ind) && Shaped(ns) && Shaped(ms) && Shaped(more)
    requires exists n | n in ms :: n.kids != []
    ensures var ls := PrintAll(ind, ns, 0) + (PrintAll(ind, ms, 0) + PrintAll(ind, more, 0));
            LeastIndent(ls, -1) == Some(ind(0)) && LeastIndent(ls, ind(0)) == Some(ind(1))
  {
    hide Indent, PrintAll, Shaped;
    var (a, b, c) := (PrintAll(ind, ns, 0), PrintAll(ind, ms, 0), PrintAll(ind, more, 0));
    var ls := a + (b + c);
    PrintedIndents(ind, ns, 0);
    PrintedIndents(ind, ms, 0);
    PrintedIndents(ind, more, 0);
    DeeperOrder(ind, 0, 1);
    assert forall l | l in ls :: l in a || l in b || l in c;
    var x :| x in b && Indent(x) == ind(0);
    var y :| y in b && Indent(y) == ind(1);
    assert x in ls && y in ls;
    LeastUnique(ls, -1, ind(0));
    LeastUnique(ls, ind(0), ind(1));
  }

  /** Which indentations lead to a dictionary after a line. */
  lemma StepPointers(top: nat, second: nat, st: State, cur: string, nxt: string)
    requires Sane(st)
    ensures var r := StepLine(top, second, st, cur, nxt);
            r.Some? ==> forall i | i in r.value.ptrs :: i in st.ptrs || (i == Indent(nxt) && Indent(nxt) > Indent(cur))
  {
    hide Indent, LStrip, Required, LeafCell, HasKey, Put;
  }

  /** A required line at an indentation that no section has opened makes the parser raise. */
  lemma UnseenIndentRaises(a: string, b: string, c: string)
    requires Indent(a) < Indent(c) < Indent(b) && Required(LStrip(c))
    ensures ParseLines([a, b, c]) == None
  {
    hide Indent, LStrip, Required, LeastIndent, StepLine;
    var ls := [a, b, c];
    assert a in ls && b in ls && c in ls;
    LeastUnique(ls, -1, Indent(a));
    LeastUnique(ls, Indent(a), Indent(c));
    assert ls == [a] + ([b] + ([c] + []));
    UnseenRuns(State([[]], map[Indent(a) := 0], false), a, b, c);
  }

  lemma UnseenRuns(st: State, a: string, b: string, c: string)
    requires Indent(a) < Indent(c) < Indent(b) && Required(LStrip(c)) && Sane(st) && Indent(c) !in st.ptrs
    ensures RunLines(Indent(a), Indent(c), st, [a] + ([b] + ([c] + []))) == None
  {
    hide Indent, LStrip, Required, StepLine, RunLines;
    var top, second := Indent(a), Indent(c);
    RunCons(top, second, st, a, [b] + ([c] + []));
    StepPointers(top, second, st, a, b);
    var s1 := StepLine(top, second, st, a, b);
    if s1.Some? {
      RunCons(top, second, s1.value, b, [c] + []);
      StepPointers(top, second, s1.value, b, c);
      var s2 := StepLine(top, second, s1.value, b, c);
      if s2.Some? {
        RunCons(top, second, s2.value, c, []);
        UnseenStep(top, s2.value, c);
      }
    }
  }

  lemma UnseenStep(top: nat, st: State, c: string)
    requires Sane(st) && Required(LStrip(c)) && Indent(c) !in st.ptrs
    ensures StepLine(top, Indent(c), st, c, "") == None
  {
    hide Indent, LStrip, Required;
  }

  // ----- assigning to a dictionary

  /** The reference under a key. */
  function Get(d: seq<Cell>, key: string): Option<Ref> {
    if d == [] then None else if d[0].key == key then Some(d[0].ref) else Get(d[1..], key)
  }

  /** An assignment changes the entry of its key and no other; a new key is added. */
  lemma {:induction false} PutGet(d: seq<Cell>, key: string, ref: Ref, k: string)
    ensures Get(Put(d, key, ref), k) == if k == key then Some(ref) else Get(d, k)
    ensures |Put(d, key, ref)| == |d| + if HasKey(d, key) then 0 else 1
  {
    if d != [] {
      PutGet(d[1..], key, ref, k);
      assert d == [d[0]] + d[1..];
    }
  }
}
