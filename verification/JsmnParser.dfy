/** The tokenizer as c_binding/jsmn.h runs it: a parser record and a token pool that are
    updated in place, proved to carry out the transition function of module `Jsmn`. */
module JsmnParser {
  import opened Jsmn

  function Code(e: Error): int {
    match e
    case NoMem => -1
    case Inval => -2
    case Part => -3
  }

  /** The return value of a run. */
  function ReturnCode(r: Outcome): int {
    match r
    case Good(toks) => |toks|
    case Bad(e) => Code(e)
  }

  /** The error codes of the tokenizer. */
  lemma ErrorCodes()
    ensures Code(NoMem) == -1 && Code(Inval) == -2 && Code(Part) == -3
  {
  }

  lemma BumpAppend(toks: seq<Token>, super: int, t: Token)
    requires -1 <= super < |toks|
    ensures Bump(toks + [t], super, 1) == Bump(toks, super, 1) + [t]
  {
  }

  class Parser {
    var pos: nat
    var toknext: nat
    var toksuper: int

    ghost function St(tokens: array<Token>): State
      reads this, tokens
      requires toknext <= tokens.Length
    {
      State(pos, tokens[..toknext], toksuper)
    }

    ghost predicate Valid(tokens: array<Token>)
      reads this, tokens
    {
      toknext <= tokens.Length && Linked(St(tokens))
    }

    /** Tokens that are not allocated keep their value. */
    twostate predicate RestKept(tokens: array<Token>)
      reads this, tokens
    {
      old(toknext) <= toknext &&
      forall k | toknext <= k < tokens.Length :: tokens[k] == old(tokens[k])
    }

    constructor ()
      ensures pos == 0 && toknext == 0 && toksuper == -1
    {
      pos, toknext, toksuper := 0, 0, -1;
    }

    method AllocToken(tokens: array<Token>) returns (ok: bool)
      requires Valid(tokens)
      modifies `toknext, tokens
      ensures ok == (old(toknext) < tokens.Length)
      ensures !ok ==> toknext == old(toknext) && tokens[..] == old(tokens[..])
      ensures ok ==> toknext == old(toknext) + 1
      ensures ok ==> tokens[..] == old(tokens[..])[old(toknext) :=
                                     old(tokens[toknext]).(start := -1, end := -1, size := 0, parent := -1)]
    {
      ok := toknext < tokens.Length;
      if ok {
        tokens[toknext] := tokens[toknext].(start := -1, end := -1, size := 0, parent := -1);
        toknext := toknext + 1;
      }
    }

    /** Allocates and fills a leaf token whose parent is the superior token. */
    method FillLeaf(tokens: array<Token>, kind: Kind, start: nat, end: nat) returns (ok: bool)
      requires Valid(tokens)
      modifies `toknext, tokens
      ensures ok == (old(toknext) < tokens.Length)
      ensures toknext <= tokens.Length && RestKept(tokens)
      ensures tokens[..toknext] == old(tokens[..toknext]) + if ok then [Token(kind, start, end, 0, toksuper)] else []
    {
      ok := AllocToken(tokens);
      if ok {
        tokens[toknext - 1] := Token(kind, start, end, 0, toksuper);
      }
    }

    method CountInSuper(tokens: array<Token>)
      requires toknext <= tokens.Length && -1 <= toksuper < toknext
      modifies tokens
      ensures tokens[..toknext] == Bump(old(tokens[..toknext]), toksuper, 1)
      ensures RestKept(tokens)
    {
      if toksuper != -1 {
        tokens[toksuper] := tokens[toksuper].(size := tokens[toksuper].size + 1);
      }
    }

    /** Leaves `pos` on the last character of the primitive, as the caller's loop expects. */
    method ParsePrimitive(js: string, tokens: array<Token>) returns (rc: int)
      requires Valid(tokens) && pos < |js| && !AtEnd(js, pos) && !Separator(js[pos])
      modifies this, tokens
      ensures toksuper == old(toksuper) && toknext <= tokens.Length && RestKept(tokens)
      ensures var r := PrimitiveEnd(js, old(pos));
              if r.Lost? then rc == Code(r.err)
              else if old(toknext) == tokens.Length then rc == Code(NoMem)
              else rc == 0 && pos + 1 == r.at &&
                   tokens[..toknext] == old(tokens[..toknext]) + [Token(Primitive, old(pos), r.at, 0, toksuper)]
    {
      var start := pos;
      while pos < |js| && js[pos] != '\0' && !Separator(js[pos])
        invariant start <= pos <= |js|
        invariant PrimitiveEnd(js, pos) == PrimitiveEnd(js, start)
        modifies `pos
        decreases |js| - pos
      {
        if js[pos] < ' ' || js[pos] > '~' {
          pos := start;
          return Code(Inval);
        }
        pos := pos + 1;
      }
      var ok := FillLeaf(tokens, Primitive, start, pos);
      if !ok {
        pos := start;
        return Code(NoMem);
      }
      pos := pos - 1;
      return 0;
    }

    /** Steps over the four hexadecimal digits of \uXXXX, as far as there are any. */
    method SkipHex(js: string) returns (ok: bool)
      requires pos <= |js|
      modifies `pos
      ensures ok == HexEnd(js, old(pos), 4).Found?
      ensures ok ==> pos == HexEnd(js, old(pos), 4).at
    {
      var i := 0;
      while i < 4 && pos < |js| && js[pos] != '\0'
        invariant 0 <= i <= 4 && pos <= |js|
        invariant HexEnd(js, pos, 4 - i) == HexEnd(js, old(pos), 4)
      {
        if !Hex(js[pos]) {
          return false;
        }
        pos := pos + 1;
        i := i + 1;
      }
      return true;
    }

    /** The scanning loop of `jsmn_parse_string`: stops on the closing quote. */
    method ScanString(js: string) returns (rc: int)
      requires pos <= |js|
      modifies `pos
      ensures var r := StringEnd(js, old(pos));
              if r.Lost? then rc == Code(r.err) else rc == 0 && pos == r.at
    {
      while pos < |js| && js[pos] != '\0'
        invariant pos <= |js|
        invariant StringEnd(js, pos) == StringEnd(js, old(pos))
        decreases |js| - pos
      {
        var c := js[pos];
        if c == '\"' {
          return 0;
        }
        if c == '\\' && pos + 1 < |js| {
          pos := pos + 1;
          if js[pos] == 'u' {
            pos := pos + 1;
            var ok := SkipHex(js);
            if !ok {
              return Code(Inval);
            }
            pos := pos - 1;
          } else if !Escapable(js[pos]) {
            return Code(Inval);
          }
        }
        pos := pos + 1;
      }
      return Code(Part);
    }

    /** Leaves `pos` on the closing quote. */
    method ParseString(js: string, tokens: array<Token>) returns (rc: int)
      requires Valid(tokens) && pos < |js|
      modifies this, tokens
      ensures toksuper == old(toksuper) && toknext <= tokens.Length && RestKept(tokens)
      ensures var r := StringEnd(js, old(pos) + 1);
              if r.Lost? then rc == Code(r.err)
              else if old(toknext) == tokens.Length then rc == Code(NoMem)
              else rc == 0 && pos == r.at &&
                   tokens[..toknext] == old(tokens[..toknext]) + [Token(String, old(pos) + 1, r.at, 0, toksuper)]
    {
      var start := pos;
      pos := pos + 1;
      rc := ScanString(js);
      if rc == 0 {
        var ok := FillLeaf(tokens, String, start + 1, pos);
        rc := if ok then 0 else Code(NoMem);
      }
      if rc < 0 {
        pos := start;
      }
    }

    /** An opening bracket. */
    method OpenBracket(tokens: array<Token>, kind: Kind) returns (rc: int)
      requires Valid(tokens)
      modifies this, tokens
      ensures Valid(tokens) && RestKept(tokens) && pos == old(pos)
      ensures match OpenAt(tokens.Length, old(St(tokens)), kind)
              case Fail(e) => rc == Code(e)
              case Next(s) => rc == 0 && St(tokens) == s.(pos := pos)
    {
      var ok := AllocToken(tokens);
      if !ok {
        return Code(NoMem);
      }
      ghost var before := old(tokens[..toknext]);
      var t := toknext - 1;
      assert tokens[..t] == before;
      if toksuper != -1 {
        tokens[toksuper] := tokens[toksuper].(size := tokens[toksuper].size + 1);
        tokens[t] := tokens[t].(parent := toksuper);
      }
      tokens[t] := tokens[t].(kind := kind, start := pos);
      assert tokens[..t] == Bump(before, toksuper, 1);
      assert tokens[..toknext] == tokens[..t] + [tokens[t]];
      toksuper := t;
      return 0;
    }

    /** The search for the token that a closing bracket ends: along the parent links. */
    method FindByParents(tokens: array<Token>) returns (w: nat)
      requires Valid(tokens) && toknext >= 1
      ensures w < toknext && w == Walk(tokens[..toknext], toknext - 1)
    {
      w := toknext - 1;
      while !(tokens[w].start != -1 && tokens[w].end == -1) && tokens[w].parent != -1
        invariant w < toknext
        invariant Walk(tokens[..toknext], w) == Walk(tokens[..toknext], toknext - 1)
        decreases w
      {
        assert tokens[..toknext][w] == tokens[w];
        w := tokens[w].parent;
      }
      assert tokens[..toknext][w] == tokens[w];
    }

    /** The same search in a build without parent links: backwards through the pool. */
    method FindByScan(tokens: array<Token>) returns (i: int)
      requires toknext <= tokens.Length
      ensures i == LastOpen(tokens[..toknext])
    {
      i := toknext - 1;
      while i >= 0 && !(tokens[i].start != -1 && tokens[i].end == -1)
        invariant -1 <= i < toknext
        invariant ScanBack(tokens[..toknext], i) == LastOpen(tokens[..toknext])
        decreases i
      {
        i := i - 1;
      }
    }

    /** A closing bracket. */
    method CloseBracket(tokens: array<Token>, kind: Kind) returns (rc: int)
      requires Valid(tokens)
      modifies this, tokens
      ensures Valid(tokens) && RestKept(tokens) && pos == old(pos)
      ensures match CloseAt(old(St(tokens)), kind)
              case Fail(e) => rc == Code(e)
              case Next(s) => rc == 0 && St(tokens) == s.(pos := pos)
    {
      if toknext < 1 {
        return Code(Inval);
      }
      var w := FindByParents(tokens);
      assert tokens[..toknext][w] == tokens[w];
      if tokens[w].start != -1 && tokens[w].end == -1 {
        if tokens[w].kind != kind {
          return Code(Inval);
        }
        tokens[w] := tokens[w].(end := pos + 1);
        toksuper := tokens[w].parent;
        assert tokens[..toknext] == old(tokens[..toknext])[w := tokens[w]];
      } else if tokens[w].kind != kind || toksuper == -1 {
        return Code(Inval);
      }
      return 0;
    }

    /** A quote or any other character that starts a leaf token. */
    method Leaf(js: string, tokens: array<Token>) returns (rc: int)
      requires Valid(tokens) && pos < |js| && !AtEnd(js, pos) && !Separator(js[pos])
      requires js[pos] != '{' && js[pos] != '['
      modifies this, tokens
      ensures RestKept(tokens)
      ensures match Advance(js, tokens.Length, old(St(tokens)))
              case Fail(e) => rc == Code(e)
              case Next(s) => rc == 0 && Valid(tokens) && pos + 1 == s.pos && St(tokens) == s.(pos := pos)
    {
      hide StringEnd, PrimitiveEnd, OpenAt, CloseAt;
      if js[pos] == '\"' {
        rc := ParseString(js, tokens);
      } else {
        rc := ParsePrimitive(js, tokens);
      }
      if rc < 0 {
        return;
      }
      ghost var leaf := tokens[toknext - 1];
      CountInSuper(tokens);
      BumpAppend(old(tokens[..toknext]), toksuper, leaf);
    }

    /** One round of the loop in `jsmn_parse`, without the final step of the cursor. */
    method Round(js: string, tokens: array<Token>) returns (rc: int)
      requires Valid(tokens) && pos < |js| && !AtEnd(js, pos)
      modifies this, tokens
      ensures RestKept(tokens)
      ensures match Advance(js, tokens.Length, old(St(tokens)))
              case Fail(e) => rc == Code(e)
              case Next(s) => rc == 0 && Valid(tokens) && pos + 1 == s.pos && St(tokens) == s.(pos := pos)
    {
      rc := 0;
      match js[pos] {
        case '{' => rc := OpenBracket(tokens, Object);
        case '[' => rc := OpenBracket(tokens, Array);
        case '}' => rc := CloseBracket(tokens, Object);
        case ']' => rc := CloseBracket(tokens, Array);
        case ':' => toksuper := toknext - 1;
        case ',' =>
          if toksuper != -1 && !Container(tokens[toksuper].kind) {
            toksuper := tokens[toksuper].parent;
          }
        case c =>
          if !Space(c) {
            rc := Leaf(js, tokens);
          }
      }
    }

    /** `jsmn_parse`: the return value and the tokens are those of the run. */
    method Parse(js: string, tokens: array<Token>) returns (rc: int)
      requires Valid(tokens) && pos <= |js|
      modifies this, tokens
      ensures RestKept(tokens)
      ensures var r := Run(js, tokens.Length, old(St(tokens)));
              rc == ReturnCode(r) &&
              (r.Good? ==> toknext <= tokens.Length && tokens[..toknext] == r.toks)
    {
      while pos < |js| && js[pos] != '\0'
        invariant Valid(tokens) && pos <= |js| && RestKept(tokens)
        invariant Run(js, tokens.Length, St(tokens)) == Run(js, tokens.Length, old(St(tokens)))
        decreases |js| - pos
      {
        rc := Round(js, tokens);
        if rc < 0 {
          return;
        }
        pos := pos + 1;
      }
      var open := FindByScan(tokens);
      rc := if open != -1 then Code(Part) else toknext;
    }
  }
}
