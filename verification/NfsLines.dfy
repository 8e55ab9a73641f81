/** What a line of the exports file says, and which lines and records are refused
    (plugin/nfs_plugin/nfs.py). */
module NfsLines {
  import opened Wrappers
  import opened Texts
  import opened NfsExports
  import opened NfsFile

  // ----- words

  /** The ways to spell a word for a shell. */
  datatype Spelling =
    | Bare(word: string)
    | Single(word: string)
    | Double(word: string)
    | Backslashed(word: string)

  predicate Spellable(s: Spelling) {
    match s
    case Bare(w) => w != "" && Safe(w)
    case Single(w) => Without(w, '\'')
    case Double(_) => true
    case Backslashed(w) => w != ""
  }

  /** Every double quote and backslash with a backslash before it. */
  function EscapeDouble(w: string): string {
    if w == [] then []
    else (if w[0] == '\"' || w[0] == '\\' then ['\\', w[0]] else [w[0]]) + EscapeDouble(w[1..])
  }

  /** Every character with a backslash before it. */
  function EscapeAll(w: string): string {
    if w == [] then [] else ['\\', w[0]] + EscapeAll(w[1..])
  }

  function Spelled(s: Spelling): string {
    match s
    case Bare(w) => w
    case Single(w) => "'" + (w + "'")
    case Double(w) => "\"" + (EscapeDouble(w) + "\"")
    case Backslashed(w) => EscapeAll(w)
  }

  function Words(ss: seq<Spelling>): seq<string> {
    if ss == [] then [] else [ss[0].word] + Words(ss[1..])
  }

  function SpelledAll(ss: seq<Spelling>): string {
    if ss == [] then "" else Spelled(ss[0]) + if |ss| == 1 then "" else " " + SpelledAll(ss[1..])
  }

  lemma {:induction false} LexSingle(w: string, rest: string, token: string, acc: seq<string>)
    requires Without(w, '\'')
    ensures Lex(w + ("'" + rest), Quoted('\''), token, true, acc) == Lex(rest, Word, token + w, true, acc)
    decreases |w|
  {
    var s := w + ("'" + rest);
    if w == [] {
      assert s == "'" + rest && s[1..] == rest && token + w == token;
    } else {
      assert w[0] in w && Without(w[1..], '\'');
      assert s[1..] == w[1..] + ("'" + rest);
      LexSingle(w[1..], rest, token + [w[0]], acc);
      assert token + [w[0]] + w[1..] == token + w;
    }
  }

  lemma {:induction false} LexDouble(w: string, rest: string, token: string, acc: seq<string>)
    ensures Lex(EscapeDouble(w) + ("\"" + rest), Quoted('\"'), token, true, acc) ==
            Lex(rest, Word, token + w, true, acc)
    decreases |w|
  {
    var s := EscapeDouble(w) + ("\"" + rest);
    if w == [] {
      assert s == "\"" + rest && s[1..] == rest && token + w == token;
    } else {
      var t := EscapeDouble(w[1..]) + ("\"" + rest);
      LexDouble(w[1..], rest, token + [w[0]], acc);
      assert token + [w[0]] + w[1..] == token + w;
      if w[0] == '\"' || w[0] == '\\' {
        assert s[0] == '\\' && s[1..][0] == w[0] && s[1..][1..] == t;
        assert Lex(s[1..], Escaped(Some('\"')), token, true, acc) == Lex(t, Quoted('\"'), token + [w[0]], true, acc);
      } else {
        assert s[0] == w[0] && s[1..] == t;
      }
    }
  }

  lemma {:induction false} LexBackslashed(w: string, rest: string, mode: Mode, token: string, acc: seq<string>)
    requires mode == Word || (mode == Between && w != [])
    ensures Lex(EscapeAll(w) + rest, mode, token, false, acc) == Lex(rest, Word, token + w, false, acc)
    decreases |w|
  {
    var s := EscapeAll(w) + rest;
    if w == [] {
      assert s == rest && token + w == token;
    } else {
      var t := EscapeAll(w[1..]) + rest;
      LexBackslashed(w[1..], rest, Word, token + [w[0]], acc);
      assert token + [w[0]] + w[1..] == token + w;
      assert s[0] == '\\' && s[1..][0] == w[0] && s[1..][1..] == t;
      assert Lex(s[1..], Escaped(None), token, false, acc) == Lex(t, Word, token + [w[0]], false, acc);
    }
  }

  /** An opening quote. */
  lemma LexOpens(q: char, body: string, rest: string, acc: seq<string>)
    requires Quote(q)
    ensures Lex([q] + (body + [q]) + rest, Between, [], false, acc) ==
            Lex(body + ([q] + rest), Quoted(q), [], true, acc)
  {
    var all := [q] + (body + [q]) + rest;
    Associative(body, [q], rest);
    assert all[0] == q && all[1..] == body + ([q] + rest);
  }

  lemma LexSpelled(s: Spelling, rest: string, acc: seq<string>)
    requires Spellable(s)
    ensures Lex(Spelled(s) + rest, Between, [], false, acc) ==
            Lex(rest, Word, s.word, s.Single? || s.Double?, acc)
  {
    hide Safe, Lex, EscapeDouble, EscapeAll, Without;
    assert [] + s.word == s.word;
    match s {
      case Bare(w) =>
        LexWord(w, rest, Between, [], false, acc);
      case Single(w) =>
        LexOpens('\'', w, rest, acc);
        LexSingle(w, rest, [], acc);
      case Double(w) =>
        LexOpens('\"', EscapeDouble(w), rest, acc);
        LexDouble(w, rest, [], acc);
      case Backslashed(w) =>
        LexBackslashed(w, rest, Between, [], acc);
    }
  }

  /** The end of a line: nothing, a comment, or white space and perhaps a comment. */
  predicate LineEnd(tail: string) {
    tail == "" || tail[0] == '#' || (tail[0] in " \t\r\n" && (tail[1..] == "" || tail[1] == '#'))
  }

  lemma WordEnds(w: string, quoted: bool, tail: string, acc: seq<string>)
    requires (w != "" || quoted) && LineEnd(tail)
    ensures Lex(tail, Word, w, quoted, acc) == Some(acc + [w])
  {
    if tail != "" && tail[0] != '#' {
      assert Lex(tail, Word, w, quoted, acc) == Lex(tail[1..], Between, [], false, acc + [w]);
    }
  }

  lemma {:induction false} LexAll(ss: seq<Spelling>, tail: string, acc: seq<string>)
    requires (forall s | s in ss :: Spellable(s)) && LineEnd(tail)
    ensures Lex(SpelledAll(ss) + tail, Between, [], false, acc) == Some(acc + Words(ss))
    decreases |ss|
  {
    hide Spelled, Lex, LineEnd;
    if ss == [] {
      assert SpelledAll(ss) + tail == tail && acc + Words(ss) == acc;
      NoWords(tail, acc);
    } else {
      var s := ss[0];
      assert s in ss;
      if |ss| == 1 {
        assert SpelledAll(ss) == Spelled(s) && Words(ss) == [s.word];
        LexSpelled(s, tail, acc);
        WordEnds(s.word, s.Single? || s.Double?, tail, acc);
      } else {
        var more := SpelledAll(ss[1..]);
        Associative(Spelled(s), " " + more, tail);
        LexSpelled(s, " " + more + tail, acc);
        WordThen(s.word, s.Single? || s.Double?, more, tail, acc);
        LexAll(ss[1..], tail, acc + [s.word]);
        Associative(acc, [s.word], Words(ss[1..]));
      }
    }
  }

  lemma NoWords(tail: string, acc: seq<string>)
    requires LineEnd(tail)
    ensures Lex(tail, Between, [], false, acc) == Some(acc)
  {
    if tail != "" && tail[0] != '#' {
      assert Lex(tail, Between, [], false, acc) == Lex(tail[1..], Between, [], false, acc);
    }
  }

  lemma WordThen(w: string, quoted: bool, more: string, tail: string, acc: seq<string>)
    requires w != "" || quoted
    ensures Lex(" " + more + tail, Word, w, quoted, acc) == Lex(more + tail, Between, [], false, acc + [w])
  {
    var all := " " + more + tail;
    assert all[0] == ' ' && all[1..] == more + tail;
  }

  /** Words in any of the spellings of a shell, with or without a comment behind them, are
      split into exactly those words. */
  lemma WordsSplit(ss: seq<Spelling>, tail: string)
    requires (forall s | s in ss :: Spellable(s)) && LineEnd(tail)
    ensures ShlexSplit(SpelledAll(ss) + tail) == Some(Words(ss))
  {
    hide Lex, SpelledAll, Spellable;
    LexAll(ss, tail, []);
    assert [] + Words(ss) == Words(ss);
  }

  lemma {:induction false} LexUnclosed(w: string, token: string, acc: seq<string>)
    requires Without(w, '\'')
    ensures Lex(w, Quoted('\''), token, true, acc) == None
    decreases |w|
  {
    if w != [] {
      assert w[0] in w && Without(w[1..], '\'');
      LexUnclosed(w[1..], token + [w[0]], acc);
    }
  }

  /** An open quote or a backslash at the end makes the reader raise. */
  lemma UnfinishedRaises(w: string)
    ensures Without(w, '\'') ==> ShlexSplit("'" + w) == None
    ensures Safe(w) ==> ShlexSplit(w + "\\") == None
  {
    hide Safe;
    if Without(w, '\'') {
      assert ("'" + w)[1..] == w;
      LexUnclosed(w, [], []);
    }
    if Safe(w) {
      assert "\\"[1..] == [];
      if w == [] {
        assert w + "\\" == "\\";
      } else {
        LexWord(w, "\\", Between, [], false, []);
      }
    }
  }

  /** Inside double quotes a backslash stays, except before a double quote or a backslash. */
  lemma BackslashStays(c: char)
    requires c != '\"' && c != '\\'
    ensures ShlexSplit(['\"', '\\', c, '\"']) == Some([['\\', c]])
  {
    var s := ['\"', '\\', c, '\"'];
    assert s[1..] == ['\\', c, '\"'] && s[1..][1..] == [c, '\"'] && s[1..][1..][1..] == ['\"'];
    assert ['\"'][1..] == [] && [] + [['\\', c]] == [['\\', c]];
    assert Lex(['\"'], Quoted('\"'), ['\\', c], true, []) == Lex([], Word, ['\\', c], true, []);
    assert Lex(['\"'], Quoted('\"'), ['\\', c], true, []) == Some([['\\', c]]);
    assert [] + ['\\', c] == ['\\', c];
    assert Lex([c, '\"'], Escaped(Some('\"')), [], true, []) == Some([['\\', c]]);
    assert Lex(['\\', c, '\"'], Quoted('\"'), [], true, []) == Some([['\\', c]]);
  }

  // ----- options

  lemma {:induction false} PiecesRefused(ps: seq<string>, acc: Options)
    ensures ParsePieces(ps, acc) == None <==> exists p | p in ps :: |Split(p, '=')| > 2
    decreases |ps|
  {
    hide Split;
    if ps != [] {
      var kv := Split(ps[0], '=');
      assert ps == [ps[0]] + ps[1..];
      if |kv| == 1 {
        PiecesRefused(ps[1..], acc[ps[0] := ps[0]]);
      } else if |kv| == 2 {
        PiecesRefused(ps[1..], acc[kv[0] := kv[1]]);
      } else {
        assert ps[0] in ps;
      }
    }
  }

  /** Option text is refused exactly when an option has two equal signs. */
  lemma OptionsRefusedIff(s: string)
    ensures ParseOptions(s) == None <==> exists p | p in Split(s, ',') :: |Split(p, '=')| > 2
  {
    PiecesRefused(Split(s, ','), map[]);
  }

  /** Options are printed in the order of their names. */
  lemma {:induction false} KeysInOrder(s: set<string>)
    ensures var r := SortedKeys(s); forall i, j | 0 <= i < j < |r| :: Less(r[i], r[j])
    decreases s
  {
    hide Less;
    if s != {} {
      var r := SortedKeys(s);
      assert Least(s, r[0]) && r[1..] == SortedKeys(s - {r[0]}) by { FirstKey(s); }
      KeysInOrder(s - {r[0]});
      forall j | 0 < j < |r| ensures Less(r[0], r[j]) {
        assert r[1..][j - 1] == r[j] && r[j] in SortedKeys(s - {r[0]});
      }
      forall i, j | 0 < i < j < |r| ensures Less(r[i], r[j]) {
        assert r[1..][i - 1] == r[i] && r[1..][j - 1] == r[j];
      }
    }
  }

  lemma FirstKey(s: set<string>)
    requires s != {}
    ensures SortedKeys(s) != [] && Least(s, SortedKeys(s)[0])
    ensures SortedKeys(s)[1..] == SortedKeys(s - {SortedKeys(s)[0]})
  {
    hide Less;
    LeastExists(s);
  }

  // ----- the record of a line

  /** The options that are not about one host, its ids or the security flavour. */
  function Others(opts: Options): Options {
    map k | k in opts && k !in {"rw", "ro", "no_root_squash", "sec", "anonuid", "anongid"} &&
            (k == "root_squash" ==> "no_root_squash" in opts) :: opts[k]
  }

  /** What the record of a line with these options says about the host. */
  predicate Says(env: Env, path: string, host: string, opts: Options, e: Export) {
    && e.path == path && env.fsid(path) == Some(e.fsid)
    && e.rw == (if "rw" in opts then [host] else [])
    && e.ro == (if "ro" in opts then [host] else [])
    && e.root == (if "no_root_squash" in opts then [host] else [])
    && e.auth == (if "sec" in opts then Some(opts["sec"]) else None)
    && Some(e.anonuid) == (if "anonuid" in opts then env.toInt(opts["anonuid"]) else Some(-1))
    && Some(e.anongid) == (if "anongid" in opts then env.toInt(opts["anongid"]) else Some(-1))
    && e.options == PrintOption(Others(opts))
  }

  predicate BadId(env: Env, opts: Options, id: string) {
    id in opts && env.toInt(opts[id]) == None
  }

  /** How a line with these options ends: with the record, with an exception when an
      anonymous id is no integer, with nothing when the path has no file system. */
  predicate LineRead(env: Env, path: string, host: string, opts: Options, p: Parsed) {
    if BadId(env, opts, "anonuid") || BadId(env, opts, "anongid") then p == Raised
    else if env.fsid(path) == None then p == Nothing
    else p.Record? && Says(env, path, host, opts, p.e)
  }

  lemma OthersLeft(opts: Options)
    ensures opts - Taken(opts) == Others(opts)
  {
  }

  lemma RecordRead(env: Env, path: string, host: string, opts: Options)
    ensures LineRead(env, path, host, opts, HostRecord(env, path, host, opts))
  {
    hide PrintOption, Others, Taken;
    OthersLeft(opts);
  }

  /** A path and `host(options)`. */
  lemma HostLine(env: Env, path: string, host: string, opts: Options)
    requires HostOk(host) && Clean(opts) && opts != map[]
    ensures LineRead(env, path, host, opts, ParseExport(env, [path, host + "(" + PrintOption(opts).value + ")"]))
  {
    hide HostOk, Clean, PrintOption, HostOptions, ParseOptions, LineRead, HostRecord;
    FieldReadBack(host, opts);
    RecordRead(env, path, host, opts);
  }

  /** A path and `(options)`: any host. */
  lemma AnyHostLine(env: Env, path: string, opts: Options)
    requires Clean(opts) && opts != map[]
    ensures LineRead(env, path, "*", opts, ParseExport(env, [path, "(" + PrintOption(opts).value + ")"]))
  {
    hide Clean, PrintOption, ParseOptions, LineRead, HostRecord;
    OptionsReadBack(opts);
    RecordRead(env, path, "*", opts);
    var field := "(" + PrintOption(opts).value + ")";
    assert field[|field| - 1] == ')' && field[1..|field| - 1] == PrintOption(opts).value;
  }

  /** A path and a host without options, or a path alone: no list has a host. */
  lemma PlainLine(env: Env, path: string, host: string)
    requires Without(host, ')')
    ensures LineRead(env, path, host, map["" := ""], ParseExport(env, [path, host]))
    ensures LineRead(env, path, "*", map["" := ""], ParseExport(env, [path]))
  {
    hide LineRead, HostRecord;
    RecordRead(env, path, host, map["" := ""]);
    RecordRead(env, path, "*", map["" := ""]);
    assert Split("", ',') == [""] && Split("", '=') == [""];
    assert [""][1..] == [];
    assert ParseOptions("") == Some(map["" := ""]);
  }

  /** The options written for a host: its mode and not the other, root squashing off for
      root hosts, and the options of the record for the rest. */
  lemma HostOptsSay(e: Export, common: Options, host: string, mode: string, other: string, k: string)
    requires {mode, other} == {"rw", "ro"}
    ensures var r := HostOpts(e, common, host, mode, other);
            && mode in r && r[mode] == mode && other !in r
            && (host in e.root ==> "root_squash" !in r && "no_root_squash" in r &&
                                   r["no_root_squash"] == "no_root_squash")
            && (k !in {"rw", "ro"} && (host in e.root ==> k !in {"root_squash", "no_root_squash"}) ==>
                  (k in r <==> k in common) && (k in r ==> r[k] == common[k]))
  {
  }

  predicate Break(c: char) {
    c == '\n' || c == '\r'
  }

  /** A line: no line break before its last character. */
  predicate CutLine(l: string) {
    l != "" && forall i | 0 <= i < |l| - 1 :: !Break(l[i])
  }

  predicate Broken(l: string) {
    l != "" && Break(l[|l| - 1])
  }

  lemma {:induction false} LinesJoin(text: string)
    ensures Concat(Lines(text)) == text
  {
    if text != [] {
      var r := Lines(text[1..]);
      LinesJoin(text[1..]);
      assert text == [text[0]] + text[1..];
      if Break(text[0]) || r == [] {
        assert ([[text[0]]] + r)[1..] == r;
      } else {
        var q := [[text[0]] + r[0]] + r[1..];
        assert q[1..] == r[1..];
        Associative([text[0]], r[0], Concat(r[1..]));
      }
    }
  }

  /** Lines that end in a line break, except perhaps the last. */
  predicate WellCut(r: seq<string>) {
    r == [] || (CutLine(r[0]) && (|r| > 1 ==> Broken(r[0])) && WellCut(r[1..]))
  }

  lemma {:induction false} LinesCut(text: string)
    ensures WellCut(Lines(text))
  {
    hide CutLine, Broken;
    if text != [] {
      var r := Lines(text[1..]);
      LinesCut(text[1..]);
      OneChar(text[0]);
      if Break(text[0]) || r == [] {
        assert ([[text[0]]] + r)[1..] == r;
      } else {
        LineGrows(text[0], r[0]);
        assert ([[text[0]] + r[0]] + r[1..])[1..] == r[1..];
      }
    }
  }

  lemma OneChar(c: char)
    ensures CutLine([c]) && (Break(c) ==> Broken([c]))
  {
  }

  lemma LineGrows(c: char, l: string)
    requires CutLine(l) && !Break(c)
    ensures CutLine([c] + l) && (Broken(l) ==> Broken([c] + l))
  {
  }

  /** The lines of a file are its text, cut exactly after every line break. */
  lemma LinesAreText(text: string)
    ensures Concat(Lines(text)) == text
    ensures WellCut(Lines(text))
  {
    hide Concat, Lines, WellCut;
    LinesJoin(text);
    LinesCut(text);
  }

  // ----- which lists can be written

  /** The record cannot be written: its options cannot be read, its path is no directory or
      of another file system, or it has an anonymous id and a host. */
  predicate Unwritable(env: Env, e: Export) {
    || (e.options.Some? && exists p | p in Split(e.options.value, ',') :: |Split(p, '=')| > 2)
    || !env.isDir(e.path)
    || env.fsid(e.path) != Some(e.fsid)
    || ((e.anonuid != -1 || e.anongid != -1) && (e.rw != [] || e.ro != []))
  }

  lemma UnwritableIff(env: Env, e: Export)
    ensures ExportLines(env, e) == None <==> Unwritable(env, e)
  {
    hide RwLines, RoLines, Split, ParsePieces;
    if e.options.Some? {
      OptionsRefusedIff(e.options.value);
    }
  }

  lemma {:induction false} AllWritableIff(env: Env, es: seq<Export>)
    ensures AllLines(env, es) == None <==> exists e | e in es :: Unwritable(env, e)
  {
    hide ExportLines, Unwritable;
    if es != [] {
      UnwritableIff(env, es[0]);
      AllWritableIff(env, es[1..]);
      assert es == [es[0]] + es[1..];
    }
  }

  /** Writing raises exactly when some record cannot be written. */
  lemma WriteRaisesIff(env: Env, es: seq<Export>)
    ensures WriteExports(env, es) == None <==> exists e | e in es :: Unwritable(env, e)
  {
    hide AllLines, Unwritable;
    AllWritableIff(env, es);
  }
}
