/** What every run of the tokenizer keeps, on any input: links and spans stay in order, the
    parent-link walk finds the innermost open container, and the size of the token pool
    only decides whether the run finishes. */
module JsmnInvariants {
  import opened Jsmn

  // ----- scanned text

  lemma {:induction false} HexEndFour(js: string, p: nat, n: nat)
    requires p <= |js|
    ensures var r := HexEnd(js, p, n);
            r.Found? ==> (forall k | p <= k < r.at :: Hex(js[k])) &&
                         (r.at == p + n || AtEnd(js, r.at))
    decreases n
  {
    if n != 0 && !AtEnd(js, p) && Hex(js[p]) {
      HexEndFour(js, p + 1, n - 1);
    }
  }

  /** Whatever the string scan accepts is a sequence of JSON string units. */
  lemma {:induction false} StringScanUnits(js: string, p: nat)
    requires p <= |js|
    ensures var r := StringEnd(js, p); r.Found? ==> Units(js[p..r.at])
    decreases |js| - p
  {
    var r := StringEnd(js, p);
    if r.Found? && js[p] != '\"' {
      var s := js[p..r.at];
      if js[p] == '\\' && p + 1 < |js| {
        if Escapable(js[p + 1]) {
          StringScanUnits(js, p + 2);
          assert s[2..] == js[p + 2..r.at];
        } else {
          HexEndFour(js, p + 2, 4);
          var q := HexEnd(js, p + 2, 4).at;
          StringScanUnits(js, q);
          assert q == p + 6;
          assert s[6..] == js[q..r.at];
        }
      } else {
        StringScanUnits(js, p + 1);
        assert s[1..] == js[p + 1..r.at];
      }
    }
  }

  lemma {:induction false} PrimitiveScanText(js: string, p: nat)
    requires p <= |js|
    ensures var r := PrimitiveEnd(js, p);
            r.Found? ==> forall k | p <= k < r.at :: Printable(js[k]) && !Separator(js[k])
    decreases |js| - p
  {
    if !AtEnd(js, p) && !Separator(js[p]) && Printable(js[p]) {
      PrimitiveScanText(js, p + 1);
    }
  }

  /** What a primitive is made of: the printable characters of ASCII without white space,
      colon, comma and closing brackets. */
  lemma PrimitiveChars(c: char)
    ensures Printable(c) && !Separator(c) <==> 32 < c as int < 127 && c !in ":,]}"
  {
  }

  // ----- ancestor chains

  /** Chains depend on the parent links alone. */
  lemma {:induction false} ChainFrame(a: seq<Token>, b: seq<Token>, i: int, o: nat)
    requires Parents(a) && Parents(b) && -1 <= i < |a| && i < |b|
    requires forall k | 0 <= k <= i :: a[k].parent == b[k].parent
    ensures OnChain(a, i, o) == OnChain(b, i, o)
    decreases i
  {
    if i != -1 {
      ChainFrame(a, b, a[i].parent, o);
    }
  }

  lemma {:induction false} ChainOrder(toks: seq<Token>, i: int, o: nat)
    requires Parents(toks) && -1 <= i < |toks| && OnChain(toks, i, o)
    ensures o <= i
    decreases i
  {
    if i != o {
      ChainOrder(toks, toks[i].parent, o);
    }
  }

  lemma {:induction false} ChainCompose(toks: seq<Token>, i: int, m: nat, o: nat)
    requires Parents(toks) && -1 <= i < |toks| && o < m < |toks|
    requires OnChain(toks, i, m) && OnChain(toks, i, o)
    ensures OnChain(toks, toks[m].parent, o)
    decreases i
  {
    if i != m {
      ChainOrder(toks, i, m);
      ChainCompose(toks, toks[i].parent, m, o);
    }
  }

  /** The walk from a token enclosed by the innermost open container stops there. */
  lemma {:induction false} WalkStops(toks: seq<Token>, i: nat, m: nat)
    requires Parents(toks) && i < |toks| && OnChain(toks, i, m)
    requires m < |toks| && Open(toks[m]) && forall j | m < j <= i :: !Open(toks[j])
    ensures Walk(toks, i) == m
    decreases i
  {
    ChainOrder(toks, i, m);
    if i != m {
      ChainOrder(toks, toks[i].parent, m);
      WalkStops(toks, toks[i].parent, m);
    }
  }

  /** In a state with an open container the closing-bracket walk along the parent links
      and the plain backward scan stop at the same token. */
  lemma WalkFindsLastOpen(st: State)
    requires Linked(st) && Chained(st) && LastOpen(st.toks) != -1
    ensures Walk(st.toks, |st.toks| - 1) == LastOpen(st.toks)
  {
    WalkStops(st.toks, |st.toks| - 1, LastOpen(st.toks));
  }

  // ----- each round keeps the invariant

  lemma PushChained(st: State, t: Token, pos: nat, super: int)
    requires Linked(st) && Chained(st) && t.parent == st.super
    requires super == st.super || super == |st.toks|
    requires Open(t) ==> super == |st.toks|
    ensures Chained(State(pos, Push(st, t), super))
  {
    var toks := Push(st, t);
    var n := |st.toks|;
    forall o | 0 <= o < |toks| && Open(toks[o])
      ensures OnChain(toks, super, o) && OnChain(toks, n, o)
    {
      if o < n {
        assert Open(st.toks[o]);
        ChainFrame(st.toks, toks, st.super, o);
      }
    }
  }

  lemma ClosedChain(toks: seq<Token>, m: nat, end: nat, o: nat)
    requires Parents(toks) && o < m < |toks|
    requires OnChain(toks, |toks| - 1, m) && OnChain(toks, |toks| - 1, o)
    ensures var closed := toks[m := toks[m].(end := end)];
            && Parents(closed)
            && OnChain(closed, toks[m].parent, o) && OnChain(closed, |toks| - 1, o)
  {
    var closed := toks[m := toks[m].(end := end)];
    ChainCompose(toks, |toks| - 1, m, o);
    ChainFrame(toks, closed, toks[m].parent, o);
    ChainFrame(toks, closed, |toks| - 1, o);
  }

  /** Closing the innermost open container. */
  function Closed(st: State): (r: State)
    requires Linked(st) && LastOpen(st.toks) != -1
    ensures Linked(r) && |r.toks| == |st.toks| && !Open(r.toks[LastOpen(st.toks)])
    ensures forall j | 0 <= j < |st.toks| && j != LastOpen(st.toks) :: r.toks[j] == st.toks[j]
  {
    var m := LastOpen(st.toks);
    State(st.pos + 1, st.toks[m := st.toks[m].(end := st.pos + 1)], st.toks[m].parent)
  }

  lemma CloseIsClosed(st: State, kind: Kind)
    requires Linked(st) && Chained(st) && LastOpen(st.toks) != -1
    ensures CloseAt(st, kind) ==
            if st.toks[LastOpen(st.toks)].kind == kind then Next(Closed(st)) else Fail(Inval)
  {
    WalkFindsLastOpen(st);
  }

  lemma ClosedChained(st: State)
    requires Linked(st) && Chained(st) && LastOpen(st.toks) != -1
    ensures Chained(Closed(st))
  {
    var s, m := Closed(st), LastOpen(st.toks);
    forall o | 0 <= o < |s.toks| && Open(s.toks[o])
      ensures OnChain(s.toks, s.super, o) && OnChain(s.toks, |s.toks| - 1, o)
    {
      ClosedChain(st.toks, m, st.pos + 1, o);
    }
  }

  /** Moving on by one character and making another enclosing token the superior one. */
  lemma MoveKeepsInv(js: string, st: State, super: int)
    requires Inv(js, st) && st.pos < |js|
    requires super == st.super || super == |st.toks| - 1 ||
             (st.super != -1 && !Container(st.toks[st.super].kind) && super == st.toks[st.super].parent)
    ensures Inv(js, State(st.pos + 1, st.toks, super))
  {
    forall o | 0 <= o < |st.toks| && Open(st.toks[o])
      ensures OnChain(st.toks, super, o)
    {
      assert Spanned(js, st.toks[o]);
      assert OnChain(st.toks, st.super, o);
    }
  }

  lemma PushPlaced(js: string, st: State, t: Token, pos: nat, super: int)
    requires Linked(st) && Placed(js, st) && t.parent == st.super
    requires st.pos < pos <= |js| && Spanned(js, t)
    requires st.pos <= t.start < pos && t.end <= pos
    ensures Placed(js, State(pos, Push(st, t), super))
  {
    var toks := Push(st, t);
    forall i | 0 <= i < |st.toks|
      ensures Spanned(js, toks[i]) && toks[i].start < pos && toks[i].end <= pos && Laminar(toks[i], t)
    {
      assert Spanned(js, st.toks[i]);
    }
    forall i, j | 0 <= i < j < |st.toks|
      ensures Laminar(toks[i], toks[j])
    {
      assert Laminar(st.toks[i], st.toks[j]);
    }
  }

  lemma ClosedPlaced(js: string, st: State)
    requires Linked(st) && Placed(js, st) && st.pos < |js| && LastOpen(st.toks) != -1
    ensures Placed(js, Closed(st))
  {
    var s, m := Closed(st), LastOpen(st.toks);
    forall i | 0 <= i < |s.toks|
      ensures Spanned(js, s.toks[i]) && s.toks[i].start < s.pos && s.toks[i].end <= s.pos
    {
      assert Spanned(js, st.toks[i]);
    }
    forall i, j | 0 <= i < j < |s.toks|
      ensures Laminar(s.toks[i], s.toks[j])
    {
      assert Laminar(st.toks[i], st.toks[j]);
    }
  }

  lemma CloseKeepsInv(js: string, st: State, kind: Kind)
    requires Inv(js, st) && st.pos < |js| && CloseAt(st, kind).Next?
    ensures Inv(js, CloseAt(st, kind).st)
  {
    if LastOpen(st.toks) != -1 {
      CloseIsClosed(st, kind);
      ClosedChained(st);
      ClosedPlaced(js, st);
    } else {
      assert CloseAt(st, kind).st == st.(pos := st.pos + 1);
    }
  }

  lemma PushKeepsInv(js: string, st: State, t: Token, pos: nat, super: int)
    requires Inv(js, st) && t.parent == st.super
    requires super == st.super || super == |st.toks|
    requires Open(t) ==> super == |st.toks|
    requires st.pos < pos <= |js| && Spanned(js, t)
    requires st.pos <= t.start < pos && t.end <= pos
    ensures Inv(js, State(pos, Push(st, t), super))
  {
    PushChained(st, t, pos, super);
    PushPlaced(js, st, t, pos, super);
  }

  lemma LeafKeepsInv(js: string, pool: nat, st: State, kind: Kind, start: nat, end: nat, pos: nat)
    requires Inv(js, st) && !Container(kind) && kind != Undefined
    requires st.pos < pos <= |js| && st.pos <= start < pos && start <= end <= pos
    requires LeafAt(pool, st, kind, start, end, pos).Next?
    ensures Inv(js, LeafAt(pool, st, kind, start, end, pos).st)
  {
    PushKeepsInv(js, st, Token(kind, start, end, 0, st.super), pos, st.super);
  }

  lemma AdvanceKeepsInv(js: string, pool: nat, st: State)
    requires Inv(js, st) && !AtEnd(js, st.pos) && Advance(js, pool, st).Next?
    ensures Inv(js, Advance(js, pool, st).st)
  {
    hide Chained, Placed, StringEnd, PrimitiveEnd;
    var c := js[st.pos];
    if c == '{' || c == '[' {
      var kind := if c == '{' then Object else Array;
      PushKeepsInv(js, st, Token(kind, st.pos, -1, 0, st.super), st.pos + 1, |st.toks|);
    } else if c == '}' || c == ']' {
      CloseKeepsInv(js, st, if c == '}' then Object else Array);
    } else if Separator(c) {
      MoveKeepsInv(js, st, Advance(js, pool, st).st.super);
    } else if c == '\"' {
      var q := StringEnd(js, st.pos + 1).at;
      LeafKeepsInv(js, pool, st, String, st.pos + 1, q, q + 1);
    } else {
      var q := PrimitiveEnd(js, st.pos).at;
      LeafKeepsInv(js, pool, st, Primitive, st.pos, q, q);
    }
  }

  /** Every string token holds JSON string units and every primitive a primitive's text. */
  ghost predicate AllWorded(js: string, st: State) {
    forall i | 0 <= i < |st.toks| :: Worded(js, st.toks[i])
  }

  lemma PushKeepsWords(js: string, st: State, t: Token)
    requires Linked(st) && AllWorded(js, st) && t.parent == st.super && Worded(js, t)
    ensures AllWorded(js, st.(toks := Push(st, t)))
  {
    var toks := Push(st, t);
    forall i | 0 <= i < |toks| ensures Worded(js, toks[i]) {
      assert i < |st.toks| ==> Worded(js, st.toks[i]);
    }
  }

  lemma CloseKeepsWords(js: string, st: State, kind: Kind)
    requires Inv(js, st) && AllWorded(js, st) && CloseAt(st, kind).Next?
    ensures AllWorded(js, CloseAt(st, kind).st)
  {
    if LastOpen(st.toks) != -1 {
      CloseIsClosed(st, kind);
      assert Spanned(js, st.toks[LastOpen(st.toks)]);
    }
  }

  lemma AdvanceKeepsWords(js: string, pool: nat, st: State)
    requires Inv(js, st) && AllWorded(js, st) && !AtEnd(js, st.pos) && Advance(js, pool, st).Next?
    ensures AllWorded(js, Advance(js, pool, st).st)
  {
    hide StringEnd, PrimitiveEnd, CloseAt, Chained, Placed, Push;
    var s := Advance(js, pool, st).st;
    var c := js[st.pos];
    if c == '{' || c == '[' {
      var t := Token(if c == '{' then Object else Array, st.pos, -1, 0, st.super);
      PushKeepsWords(js, st, t);
    } else if c == '}' || c == ']' {
      CloseKeepsWords(js, st, if c == '}' then Object else Array);
    } else if !Separator(c) {
      var kind, start, end := LeafBounds(js, pool, st);
      PushKeepsWords(js, st, Token(kind, start, end, 0, st.super));
    }
  }

  /** The leaf token that a round appends. */
  lemma LeafBounds(js: string, pool: nat, st: State) returns (kind: Kind, start: nat, end: nat)
    requires Linked(st) && !AtEnd(js, st.pos) && Advance(js, pool, st).Next?
    requires !Separator(js[st.pos]) && js[st.pos] != '{' && js[st.pos] != '['
    ensures var t := Token(kind, start, end, 0, st.super);
            Worded(js, t) && Advance(js, pool, st).st.toks == Push(st, t)
  {
    hide StringEnd, PrimitiveEnd, CloseAt, Push, Units;
    if js[st.pos] == '\"' {
      StringScanUnits(js, st.pos + 1);
      kind, start, end := String, st.pos + 1, StringEnd(js, st.pos + 1).at;
    } else {
      PrimitiveScanText(js, st.pos);
      kind, start, end := Primitive, st.pos, PrimitiveEnd(js, st.pos).at;
      assert js[start..end][0] == js[st.pos];
    }
  }

  // ----- every reachable state, every finished run

  lemma InitInv(js: string)
    ensures Inv(js, INIT)
  {
  }

  /** Every state that the loop reaches, on any text and with any pool, is in order:
      parents below their children, `super` in range, spans inside the text, nested or
      disjoint, and every open container on the chain of the last token. */
  lemma {:induction false} ReachableInv(js: string, pool: nat, n: nat)
    ensures var r := After(js, pool, n); r.Next? ==> Inv(js, r.st)
  {
    hide Advance, Chained, Placed;
    if n == 0 {
      assert Inv(js, INIT) by {
        InitInv(js);
      }
    } else {
      ReachableInv(js, pool, n - 1);
      var prev := After(js, pool, n - 1);
      if prev.Next? && !AtEnd(js, prev.st.pos) && Advance(js, pool, prev.st).Next? {
        AdvanceKeepsInv(js, pool, prev.st);
      }
    }
  }

  /** When a closing bracket is accepted. */
  ghost predicate CloseRule(st: State, kind: Kind)
    requires Linked(st)
  {
    if LastOpen(st.toks) != -1
    then Walk(st.toks, |st.toks| - 1) == LastOpen(st.toks) &&
         (CloseAt(st, kind).Next? <==> st.toks[LastOpen(st.toks)].kind == kind)
    else CloseAt(st, kind).Next? <==>
           st.toks != [] && st.super != -1 && st.toks[Walk(st.toks, |st.toks| - 1)].kind == kind
  }

  lemma CloseFollowsRule(st: State, kind: Kind)
    requires Linked(st) && Chained(st)
    ensures CloseRule(st, kind)
  {
    hide Chained;
    if LastOpen(st.toks) != -1 {
      WalkFindsLastOpen(st);
    }
  }

  /** The two ways of finding the bracket to close agree in every reachable state with an
      open container.  With none open the walk ends at a root: the scan build then always
      rejects the bracket, the parent-link build lets it pass exactly when the root has
      the bracket's kind and `super` is set. */
  lemma WalkEqualsScan(js: string, pool: nat, n: nat, kind: Kind)
    requires After(js, pool, n).Next?
    ensures CloseRule(After(js, pool, n).st, kind)
  {
    hide *;
    ReachableInv(js, pool, n);
    InvParts(js, After(js, pool, n).st);
    CloseFollowsRule(After(js, pool, n).st, kind);
  }

  lemma InvParts(js: string, st: State)
    requires Inv(js, st)
    ensures Linked(st) && Chained(st)
  {
  }

  lemma RunStep(js: string, pool: nat, s: State, t: State)
    requires Linked(s) && !AtEnd(js, s.pos) && Advance(js, pool, s) == Next(t)
    ensures Run(js, pool, s) == Run(js, pool, t)
  {
    hide Advance;
  }

  lemma RunEnd(js: string, pool: nat, st: State)
    requires Linked(st) && st.pos == |js|
    ensures Run(js, pool, st) == if LastOpen(st.toks) != -1 then Bad(Part) else Good(st.toks)
  {
  }

  lemma OpenFirst(st: State, pool: nat)
    requires st.toks == [] && st.super == -1 && pool > 0
    ensures OpenAt(pool, st, Object) == Next(State(st.pos + 1, [Token(Object, st.pos, -1, 0, -1)], 0))
  {
  }

  lemma CloseOnly(st: State, t: Token)
    requires st.toks == [t] && t.parent == -1 && t.kind == Object
    requires -1 <= st.super <= 0 && (Open(t) || st.super == 0)
    ensures CloseAt(st, Object) ==
            Next(State(st.pos + 1, [if Open(t) then t.(end := st.pos + 1) else t], if Open(t) then -1 else 0))
  {
    assert Walk(st.toks, 0) == 0;
  }

  /** `{}:}` is accepted although its last bracket closes nothing. */
  lemma UnmatchedBracketAccepted()
    ensures Run("{}:}", 1, INIT) == Good([Token(Object, 0, 2, 0, -1)])
  {
    hide Run, StringEnd, PrimitiveEnd, OpenAt, CloseAt;
    var js := "{}:}";
    var s1 := State(1, [Token(Object, 0, -1, 0, -1)], 0);
    var s2 := State(2, [Token(Object, 0, 2, 0, -1)], -1);
    var s3 := State(3, s2.toks, 0);
    OpenFirst(INIT, 1);
    RunStep(js, 1, INIT, s1);
    CloseOnly(s1, s1.toks[0]);
    RunStep(js, 1, s1, s2);
    RunStep(js, 1, s2, s3);
    CloseOnly(s3, s3.toks[0]);
    RunStep(js, 1, s3, s3.(pos := 4));
    RunEnd(js, 1, s3.(pos := 4));
  }

  lemma {:induction false} RunKeepsInv(js: string, pool: nat, st: State)
    requires Inv(js, st) && AllWorded(js, st)
    ensures var r := Run(js, pool, st);
            r.Good? ==> exists s :: Inv(js, s) && AllWorded(js, s) && s.toks == r.toks
    ensures var r := Run(js, pool, st); r.Good? ==> LastOpen(r.toks) == -1
    decreases |js| - st.pos
  {
    if !AtEnd(js, st.pos) && Advance(js, pool, st).Next? {
      AdvanceKeepsInv(js, pool, st);
      AdvanceKeepsWords(js, pool, st);
      RunKeepsInv(js, pool, Advance(js, pool, st).st);
    }
  }

  /** A finished run gives tokens whose starts strictly increase, whose spans lie inside
      the text and are pairwise nested or disjoint, and whose text fits their kind. */
  lemma ParsedSpans(js: string, pool: nat)
    ensures var r := Run(js, pool, INIT);
            r.Good? ==>
              && Parents(r.toks)
              && |r.toks| <= |js|
              && (forall i | 0 <= i < |r.toks| :: Within(js, r.toks[i]) && Worded(js, r.toks[i]))
              && (forall i, j | 0 <= i < j < |r.toks| ::
                    && r.toks[i].start < r.toks[j].start
                    && (r.toks[i].end <= r.toks[j].start || r.toks[j].end <= r.toks[i].end))
  {
    RunKeepsInv(js, pool, INIT);
    var r := Run(js, pool, INIT);
    if r.Good? {
      var s :| Inv(js, s) && AllWorded(js, s) && s.toks == r.toks;
      forall i | 0 <= i < |r.toks| ensures Within(js, r.toks[i]) {
        assert Spanned(js, s.toks[i]) && !Open(s.toks[i]);
      }
      forall i, j | 0 <= i < j < |r.toks|
        ensures r.toks[i].start < r.toks[j].start
        ensures r.toks[i].end <= r.toks[j].start || r.toks[j].end <= r.toks[i].end
      {
        assert Laminar(s.toks[i], s.toks[j]) && !Open(s.toks[i]);
      }
    }
  }

  // ----- the token pool

  /** A pool of one token per byte never runs out. */
  lemma {:induction false} PoolSuffices(js: string, pool: nat, st: State)
    requires Inv(js, st) && |js| <= pool
    ensures Run(js, pool, st) != Bad(NoMem)
    decreases |js| - st.pos
  {
    if !AtEnd(js, st.pos) {
      NoScanRunsOut(js, st.pos);
      if Advance(js, pool, st).Next? {
        AdvanceKeepsInv(js, pool, st);
        PoolSuffices(js, pool, Advance(js, pool, st).st);
      }
    }
  }

  lemma {:induction false} NoScanRunsOut(js: string, p: nat)
    requires p <= |js|
    ensures StringEnd(js, p) != Lost(NoMem) && PrimitiveEnd(js, p) != Lost(NoMem)
    ensures p < |js| ==> StringEnd(js, p + 1) != Lost(NoMem)
    ensures forall n: nat :: HexEnd(js, p, n) != Lost(NoMem)
    decreases |js| - p
  {
    if p < |js| {
      NoScanRunsOut(js, p + 1);
      if p + 1 < |js| {
        NoScanRunsOut(js, p + 2);
        if HexEnd(js, p + 2, 4).Found? {
          NoScanRunsOut(js, HexEnd(js, p + 2, 4).at);
        }
      }
    }
  }

  /** Growing the pool changes nothing once the run no longer ends for lack of tokens. */
  lemma {:induction false} PoolIrrelevant(js: string, small: nat, large: nat, st: State)
    requires Linked(st) && st.pos <= |js| && small <= large
    requires Run(js, small, st) != Bad(NoMem)
    ensures Run(js, large, st) == Run(js, small, st)
    decreases |js| - st.pos
  {
    if !AtEnd(js, st.pos) {
      assert Advance(js, small, st) == Advance(js, large, st);
      if Advance(js, small, st).Next? {
        PoolIrrelevant(js, small, large, Advance(js, small, st).st);
      }
    }
  }
}
