/** The tokenizer of c_binding/jsmn.h, built with parent links and without strict mode,
    as a transition function on parser states.

    A `char` stands for one byte of the C text.  The state holds the tokens allocated so
    far (`tokens[..toknext]`), the cursor `pos` and the index `super` of the superior
    token.  `Advance` is one round of the loop in `jsmn_parse` and `Run` the whole loop. */
module Jsmn {

  datatype Kind = Undefined | Object | Array | String | Primitive

  datatype Token = Token(kind: Kind, start: int, end: int, size: int, parent: int)

  datatype Error = NoMem | Inval | Part

  /** What a calloc'ed token looks like. */
  const BLANK := Token(Undefined, 0, 0, 0, 0)

  /** An object or array whose closing bracket has not been seen. */
  predicate Open(t: Token) {
    t.start != -1 && t.end == -1
  }

  predicate Container(k: Kind) {
    k == Object || k == Array
  }

  datatype State = State(pos: nat, toks: seq<Token>, super: int)

  const INIT := State(0, [], -1)

  datatype Step = Next(st: State) | Fail(err: Error)

  datatype Outcome = Good(toks: seq<Token>) | Bad(err: Error)

  // ----- character scanning

  predicate AtEnd(js: string, p: nat) {
    p >= |js| || js[p] == '\0'
  }

  predicate Space(c: char) {
    c == '\t' || c == '\r' || c == '\n' || c == ' '
  }

  /** The characters that end a primitive. */
  predicate Separator(c: char) {
    Space(c) || c == ':' || c == ',' || c == ']' || c == '}'
  }

  predicate Printable(c: char) {
    ' ' <= c <= '~'
  }

  predicate Escapable(c: char) {
    c == '\"' || c == '/' || c == '\\' || c == 'b' || c == 'f' || c == 'r' || c == 'n' || c == 't'
  }

  predicate Hex(c: char) {
    '0' <= c <= '9' || 'A' <= c <= 'F' || 'a' <= c <= 'f'
  }

  datatype Scan = Found(at: nat) | Lost(err: Error)

  /** Where the primitive whose scan has reached `p` ends. */
  function PrimitiveEnd(js: string, p: nat): (r: Scan)
    requires p <= |js|
    ensures r.Found? ==> p <= r.at <= |js|
    ensures r.Found? && !AtEnd(js, p) && !Separator(js[p]) ==> p < r.at
    decreases |js| - p
  {
    if AtEnd(js, p) || Separator(js[p]) then Found(p)
    else if !Printable(js[p]) then Lost(Inval)
    else PrimitiveEnd(js, p + 1)
  }

  /** The cursor after reading up to `n` hexadecimal digits. */
  function HexEnd(js: string, p: nat, n: nat): (r: Scan)
    requires p <= |js|
    ensures r.Found? ==> p <= r.at <= |js|
    decreases n
  {
    if n == 0 || AtEnd(js, p) then Found(p)
    else if !Hex(js[p]) then Lost(Inval)
    else HexEnd(js, p + 1, n - 1)
  }

  /** Where the closing quote of the string whose scan has reached `p` is. */
  function StringEnd(js: string, p: nat): (r: Scan)
    requires p <= |js|
    ensures r.Found? ==> p <= r.at < |js| && js[r.at] == '\"'
    decreases |js| - p
  {
    if AtEnd(js, p) then Lost(Part)
    else if js[p] == '\"' then Found(p)
    else if js[p] == '\\' && p + 1 < |js| then
      if Escapable(js[p + 1]) then StringEnd(js, p + 2)
      else if js[p + 1] == 'u' then
        match HexEnd(js, p + 2, 4)
        case Found(q) => StringEnd(js, q)
        case Lost(e) => Lost(e)
      else Lost(Inval)
    else StringEnd(js, p + 1)
  }

  // ----- parent links

  /** Every parent index is below the token's own index. */
  predicate Parents(toks: seq<Token>) {
    forall i | 0 <= i < |toks| :: -1 <= toks[i].parent < i
  }

  predicate Linked(st: State) {
    Parents(st.toks) && -1 <= st.super < |st.toks|
  }

  /** Where the closing-bracket walk along the parent links stops. */
  function Walk(toks: seq<Token>, i: nat): (r: nat)
    requires Parents(toks) && i < |toks|
    ensures r <= i
    ensures !Open(toks[r]) ==> toks[r].parent == -1
  {
    if Open(toks[i]) || toks[i].parent == -1 then i else Walk(toks, toks[i].parent)
  }

  /** Where the plain backward scan for an open token stops, -1 when there is none. */
  function ScanBack(toks: seq<Token>, i: int): (r: int)
    requires -1 <= i < |toks|
    ensures -1 <= r <= i
    ensures r != -1 ==> Open(toks[r])
    ensures forall j | r < j <= i :: !Open(toks[j])
    decreases i
  {
    if i == -1 || Open(toks[i]) then i else ScanBack(toks, i - 1)
  }

  /** The most recently opened container that is still open, -1 when there is none. */
  function LastOpen(toks: seq<Token>): (r: int)
    ensures -1 <= r < |toks|
    ensures r != -1 ==> Open(toks[r])
    ensures forall j | r < j < |toks| :: !Open(toks[j])
  {
    ScanBack(toks, |toks| - 1)
  }

  // ----- one round of the loop

  /** Adds `n` to the size of the superior token. */
  function Bump(toks: seq<Token>, super: int, n: nat): (r: seq<Token>)
    requires -1 <= super < |toks|
    ensures |r| == |toks|
    ensures forall i | 0 <= i < |toks| ::
              r[i] == if i == super then toks[i].(size := toks[i].size + n) else toks[i]
  {
    if super == -1 then toks else toks[super := toks[super].(size := toks[super].size + n)]
  }

  function Push(st: State, t: Token): (r: seq<Token>)
    requires Linked(st) && t.parent == st.super
    ensures Parents(r) && |r| == |st.toks| + 1
  {
    Bump(st.toks, st.super, 1) + [t]
  }

  function OpenAt(pool: nat, st: State, kind: Kind): (r: Step)
    requires Linked(st)
    ensures r.Next? ==> Linked(r.st) && r.st.pos == st.pos + 1
  {
    if |st.toks| >= pool then Fail(NoMem)
    else
      var toks := Push(st, Token(kind, st.pos, -1, 0, st.super));
      Next(State(st.pos + 1, toks, |toks| - 1))
  }

  function CloseAt(st: State, kind: Kind): (r: Step)
    requires Linked(st)
    ensures r.Next? ==> Linked(r.st) && r.st.pos == st.pos + 1
  {
    if st.toks == [] then Fail(Inval)
    else
      var w := Walk(st.toks, |st.toks| - 1);
      var t := st.toks[w];
      if Open(t) then
        if t.kind != kind then Fail(Inval)
        else Next(State(st.pos + 1, st.toks[w := t.(end := st.pos + 1)], t.parent))
      else if t.kind != kind || st.super == -1 then Fail(Inval)
      else Next(st.(pos := st.pos + 1))
  }

  function LeafAt(pool: nat, st: State, kind: Kind, start: nat, end: nat, pos: nat): (r: Step)
    requires Linked(st)
    ensures r.Next? ==> Linked(r.st) && r.st.pos == pos
  {
    if |st.toks| >= pool then Fail(NoMem)
    else Next(State(pos, Push(st, Token(kind, start, end, 0, st.super)), st.super))
  }

  function CommaAt(st: State): (r: Step)
    requires Linked(st)
    ensures r.Next? && Linked(r.st) && r.st.pos == st.pos + 1
  {
    if st.super != -1 && !Container(st.toks[st.super].kind)
    then Next(State(st.pos + 1, st.toks, st.toks[st.super].parent))
    else Next(st.(pos := st.pos + 1))
  }

  function Advance(js: string, pool: nat, st: State): (r: Step)
    requires Linked(st) && !AtEnd(js, st.pos)
    ensures r.Next? ==> Linked(r.st) && st.pos < r.st.pos <= |js|
  {
    var c := js[st.pos];
    if c == '{' then OpenAt(pool, st, Object)
    else if c == '[' then OpenAt(pool, st, Array)
    else if c == '}' then CloseAt(st, Object)
    else if c == ']' then CloseAt(st, Array)
    else if c == '\"' then
      match StringEnd(js, st.pos + 1)
      case Found(q) => LeafAt(pool, st, String, st.pos + 1, q, q + 1)
      case Lost(e) => Fail(e)
    else if Space(c) then Next(st.(pos := st.pos + 1))
    else if c == ':' then Next(State(st.pos + 1, st.toks, |st.toks| - 1))
    else if c == ',' then CommaAt(st)
    else
      match PrimitiveEnd(js, st.pos)
      case Found(q) => LeafAt(pool, st, Primitive, st.pos, q, q)
      case Lost(e) => Fail(e)
  }

  /** The loop of `jsmn_parse` with the final check for unmatched open brackets. */
  function Run(js: string, pool: nat, st: State): (r: Outcome)
    requires Linked(st) && st.pos <= |js|
    decreases |js| - st.pos
  {
    if AtEnd(js, st.pos) then
      if LastOpen(st.toks) != -1 then Bad(Part) else Good(st.toks)
    else
      match Advance(js, pool, st)
      case Next(s) => Run(js, pool, s)
      case Fail(e) => Bad(e)
  }

  /** The state after `n` rounds from the initial state, if the loop gets that far. */
  function After(js: string, pool: nat, n: nat): (r: Step)
    ensures r.Next? ==> Linked(r.st) && r.st.pos <= |js|
  {
    if n == 0 then Next(INIT)
    else
      var prev := After(js, pool, n - 1);
      if prev.Fail? || AtEnd(js, prev.st.pos) then prev else Advance(js, pool, prev.st)
  }

  // ----- what every token's text looks like

  /** Raw text made of JSON string units: plain characters, two-character escapes and
      \uXXXX (section 7 of RFC 8259; control characters other than NUL are let through). */
  predicate Units(s: string) {
    s == [] ||
    if s[0] == '\\' then
      |s| >= 2 &&
      if Escapable(s[1]) then Units(s[2..])
      else s[1] == 'u' && |s| >= 6 && (forall k | 2 <= k < 6 :: Hex(s[k])) && Units(s[6..])
    else
      s[0] != '\"' && s[0] != '\0' && Units(s[1..])
  }

  /** Text that is scanned as one primitive. */
  predicate PrimitiveText(s: string) {
    s != [] && (forall c | c in s :: Printable(c) && !Separator(c))
    && s[0] != '{' && s[0] != '[' && s[0] != '\"'
  }

  predicate Within(js: string, t: Token) {
    0 <= t.start <= t.end <= |js|
  }

  /** Only containers are open, and a finished token has a kind and a span in the text. */
  predicate Spanned(js: string, t: Token) {
    if Open(t) then Container(t.kind) && 0 <= t.start <= |js|
    else t.kind != Undefined && Within(js, t)
  }

  /** The text of a string or primitive token fits its kind. */
  predicate Worded(js: string, t: Token) {
    && (t.kind == String ==> Within(js, t) && Units(js[t.start..t.end]))
    && (t.kind == Primitive ==> Within(js, t) && PrimitiveText(js[t.start..t.end]))
  }

  // ----- invariants of every run

  /** `o` is `i` or one of its ancestors. */
  ghost predicate OnChain(toks: seq<Token>, i: int, o: nat)
    requires Parents(toks) && -1 <= i < |toks|
    decreases i
  {
    i == o || (i != -1 && OnChain(toks, toks[i].parent, o))
  }

  /** Every open container encloses both the superior token and the last token. */
  ghost predicate Chained(st: State)
    requires Linked(st)
  {
    forall o | 0 <= o < |st.toks| && Open(st.toks[o]) ::
      OnChain(st.toks, st.super, o) && OnChain(st.toks, |st.toks| - 1, o)
  }

  /** Two tokens, the first allocated earlier, are nested or disjoint. */
  predicate Laminar(a: Token, b: Token) {
    a.start < b.start && (Open(a) || a.end <= b.start || (!Open(b) && b.end <= a.end))
  }

  ghost predicate Placed(js: string, st: State) {
    && |st.toks| <= st.pos <= |js|
    && (forall i | 0 <= i < |st.toks| ::
          Spanned(js, st.toks[i]) && st.toks[i].start < st.pos && st.toks[i].end <= st.pos)
    && (forall i, j | 0 <= i < j < |st.toks| :: Laminar(st.toks[i], st.toks[j]))
  }

  ghost predicate Inv(js: string, st: State) {
    Linked(st) && Chained(st) && Placed(js, st)
  }
}
