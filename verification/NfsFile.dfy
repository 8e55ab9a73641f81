/** Writing the exports file of plugin/nfs_plugin/nfs.py and reading it back. */
module NfsFile {
  import opened Wrappers
  import opened Texts
  import opened NfsExports

  const HEADER := "# NFS exports managed " + "by libstoragemgmt." + " do not edit." + "\n"

  // ----- _write_exports

  /** The options on the line of one host, listed under `mode`. */
  function HostOpts(e: Export, common: Options, host: string, mode: string, other: string): (r: Options)
    ensures r != map[]
  {
    var opts := if host in e.root
                then (common - {"root_squash"})["no_root_squash" := "no_root_squash"] else common;
    var r := (opts - {other})[mode := mode];
    assert mode in r;
    r
  }

  function Field(host: string, opts: Options): string
    requires opts != map[]
  {
    host + "(" + PrintOption(opts).value + ")"
  }

  function RwLine(e: Export, common: Options, host: string): string {
    (if ' ' in e.path then "\"" + e.path + "\"" else e.path) + " " +
    Field(host, HostOpts(e, common, host, "rw", "ro")) + "\n"
  }

  function RoLine(e: Export, common: Options, host: string): string {
    e.path + " " + Field(host, HostOpts(e, common, host, "ro", "rw")) + "\n"
  }

  function RwLines(e: Export, common: Options, hosts: seq<string>): seq<string> {
    if hosts == [] then [] else [RwLine(e, common, hosts[0])] + RwLines(e, common, hosts[1..])
  }

  function RoLines(e: Export, common: Options, hosts: seq<string>): seq<string> {
    if hosts == [] then [] else [RoLine(e, common, hosts[0])] + RoLines(e, common, hosts[1..])
  }

  function WithAuth(e: Export, m: Options): Options {
    if e.auth.None? then m else m["sec" := e.auth.value]
  }

  /** The lines of one export, None for an exception: options that do not parse, a path
      that is no directory of its file system, or an anonymous id, which is an integer
      where text is needed as soon as a line is printed. */
  function ExportLines(env: Env, e: Export): Option<seq<string>> {
    match (if e.options.None? then Some(map[]) else ParseOptions(e.options.value))
    case None => None
    case Some(m) =>
      if !env.isDir(e.path) || env.fsid(e.path) != Some(e.fsid) then None
      else if (e.anonuid != ANON_NA || e.anongid != ANON_NA) && e.rw + e.ro != [] then None
      else
        var common := WithAuth(e, m);
        Some(RwLines(e, common, e.rw) + RoLines(e, common, e.ro))
  }

  function AllLines(env: Env, es: seq<Export>): Option<seq<string>> {
    if es == [] then Some([])
    else
      match (ExportLines(env, es[0]), AllLines(env, es[1..]))
      case (Some(a), Some(b)) => Some(a + b)
      case _ => None
  }

  function Concat(lines: seq<string>): string {
    if lines == [] then [] else lines[0] + Concat(lines[1..])
  }

  function WriteExports(env: Env, es: seq<Export>): Option<string> {
    match AllLines(env, es)
    case None => None
    case Some(lines) => Some(HEADER + Concat(lines))
  }

  // ----- what can be stored

  predicate SafeChar(c: char) {
    !Whitespace(c) && c != '#' && !Quote(c) && c != '\\'
  }

  /** No whitespace, quote, backslash or hash. */
  predicate Safe(s: string) {
    forall c | c in s :: SafeChar(c)
  }

  /** No double quote or backslash. */
  predicate Quotable(s: string) {
    Without(s, '\"') && Without(s, '\\')
  }

  /** A path is bare, or with spaces and then quoted, which only lines of writers are. */
  predicate PathOk(e: Export) {
    e.path != "" &&
    if ' ' in e.path then e.ro == [] && Quotable(e.path) && Without(e.path, '\n') && Without(e.path, '\r')
    else Safe(e.path)
  }

  predicate HostOk(h: string) {
    h != "" && Safe(h) && Without(h, '(') && Without(h, ')')
  }

  predicate WordOk(s: string) {
    Safe(s) && Without(s, ',') && Without(s, '=') && Without(s, '(')
  }

  predicate Clean(m: Options) {
    forall k | k in m :: WordOk(k) && WordOk(m[k])
  }

  const RESERVED: set<string> := {"rw", "ro", "no_root_squash", "root_squash", "sec", "anonuid", "anongid"}

  /** `m` is what the option text of the record says. */
  predicate Describes(m: Options, e: Export) {
    Clean(m) && m.Keys !! RESERVED && e.options == PrintOption(m)
  }

  /** Hosts are listed once in each list, root hosts are also readers or writers but not
      both, and there is at least one host. */
  predicate HostsOk(e: Export) {
    && HostsDistinct(e) && e.rw + e.ro != []
    && (forall h | h in e.rw + e.ro :: HostOk(h))
    && (forall h | h in e.root :: (h in e.rw) != (h in e.ro))
  }

  ghost predicate Storable(env: Env, e: Export) {
    && PathOk(e) && HostsOk(e)
    && (e.auth.Some? ==> WordOk(e.auth.value))
    && e.anonuid == ANON_NA && e.anongid == ANON_NA
    && env.isDir(e.path) && env.fsid(e.path) == Some(e.fsid)
    && exists m :: Describes(m, e)
  }

  // ----- options read back

  lemma PieceReadBack(k: string, v: string)
    requires WordOk(k) && WordOk(v)
    ensures Split(PrintPiece(k, v), '=') == if k == v then [k] else [k, v]
    ensures Without(PrintPiece(k, v), ',') && Without(PrintPiece(k, v), '(') && Safe(PrintPiece(k, v))
  {
    SplitWhole(k, '=');
    if k != v {
      SplitFirst(k, '=', v);
      SplitWhole(v, '=');
    }
  }

  function Restrict(m: Options, ks: seq<string>): Options {
    map k | k in ks && k in m :: m[k]
  }

  lemma RestrictCons(ks: seq<string>, m: Options, acc: Options)
    requires ks != [] && ks[0] in m
    ensures acc[ks[0] := m[ks[0]]] + Restrict(m, ks[1..]) == acc + Restrict(m, ks)
  {
  }

  lemma {:induction false} PiecesReadBack(ks: seq<string>, m: Options, acc: Options)
    requires Clean(m) && forall k | k in ks :: k in m
    ensures ParsePieces(PrintPieces(ks, m), acc) == Some(acc + Restrict(m, ks))
    decreases |ks|
  {
    hide WordOk, Restrict;
    if ks == [] {
      assert acc + Restrict(m, ks) == acc by { RestrictNone(m, acc); }
    } else {
      var k := ks[0];
      PieceReadBack(k, m[k]);
      PiecesReadBack(ks[1..], m, acc[k := m[k]]);
      RestrictCons(ks, m, acc);
    }
  }

  lemma RestrictNone(m: Options, acc: Options)
    ensures acc + Restrict(m, []) == acc
  {
  }

  /** A text without comma or parenthesis that stays one word. */
  predicate PieceOk(p: string) {
    Without(p, ',') && Without(p, '(') && Safe(p)
  }

  lemma {:induction false} PiecesOk(ks: seq<string>, m: Options)
    requires Clean(m) && forall k | k in ks :: k in m
    ensures forall p | p in PrintPieces(ks, m) :: PieceOk(p)
    decreases |ks|
  {
    hide Safe, Without, WordOk, PrintPiece;
    if ks != [] {
      PieceReadBack(ks[0], m[ks[0]]);
      PiecesOk(ks[1..], m);
    }
  }

  /** Printing a dictionary of options and parsing the text gives it back. */
  lemma OptionsReadBack(m: Options)
    requires Clean(m) && m != map[]
    ensures ParseOptions(PrintOption(m).value) == Some(m)
    ensures Without(PrintOption(m).value, '(') && Safe(PrintOption(m).value)
  {
    hide Clean, Without, Less;
    var ks := SortedKeys(m.Keys);
    var ps := PrintPieces(ks, m);
    PiecesReadBack(ks, m, map[]);
    PiecesOk(ks, m);
    assert ps != [] by { assert m.Keys != {}; }
    SplitJoin(ps, ',');
    assert map[] + Restrict(m, ks) == m;
    JoinWithout(ps, ',', '(');
    JoinSafe(ps);
  }

  lemma {:induction false} JoinSafe(ps: seq<string>)
    requires forall p | p in ps :: Safe(p)
    ensures Safe(Join(ps, ','))
  {
    if ps != [] {
      assert ps[0] in ps;
      JoinSafe(ps[1..]);
    }
  }

  // ----- one line read back

  lemma {:induction false} LexWord(w: string, rest: string, mode: Mode, token: string, quoted: bool, acc: seq<string>)
    requires Safe(w) && (mode == Word || (mode == Between && w != []))
    ensures Lex(w + rest, mode, token, quoted, acc) == Lex(rest, Word, token + w, quoted, acc)
    decreases |w|
  {
    if w == [] {
      assert w + rest == rest && token + w == token;
    } else {
      assert w[0] in w;
      assert (w + rest)[1..] == w[1..] + rest;
      LexWord(w[1..], rest, Word, token + [w[0]], quoted, acc);
      assert token + [w[0]] + w[1..] == token + w;
    }
  }

  lemma {:induction false} LexQuoted(w: string, rest: string, token: string, acc: seq<string>)
    requires Quotable(w)
    ensures Lex(w + rest, Quoted('\"'), token, true, acc) == Lex(rest, Quoted('\"'), token + w, true, acc)
    decreases |w|
  {
    if w == [] {
      assert w + rest == rest && token + w == token;
    } else {
      assert w[0] in w && Quotable(w[1..]);
      assert (w + rest)[1..] == w[1..] + rest;
      LexQuoted(w[1..], rest, token + [w[0]], acc);
      assert token + [w[0]] + w[1..] == token + w;
    }
  }

  /** The second word and the end of a line. */
  lemma LexField(field: string, path: string)
    requires Safe(field) && field != []
    ensures Lex(field + "\n", Between, [], false, [path]) == Some([path, field])
  {
    LexWord(field, "\n", Between, [], false, [path]);
    assert [] + field == field;
    assert "\n"[1..] == [];
    assert Lex("\n", Word, field, false, [path]) == Lex([], Between, [], false, [path] + [field]);
    assert [path] + [field] == [path, field];
  }

  lemma LexBare(path: string, field: string)
    requires Safe(path) && path != [] && Safe(field) && field != []
    ensures ShlexSplit(path + " " + field + "\n") == Some([path, field])
  {
    hide Safe;
    var rest := " " + (field + "\n");
    assert path + " " + field + "\n" == path + rest;
    LexWord(path, rest, Between, [], false, []);
    assert [] + path == path && rest[1..] == field + "\n";
    LexField(field, path);
    assert [] + [path] == [path];
  }

  lemma LexWithSpaces(path: string, field: string)
    requires Quotable(path) && Safe(field) && field != []
    ensures ShlexSplit("\"" + path + "\"" + " " + field + "\n") == Some([path, field])
  {
    hide Safe;
    var tail := " " + (field + "\n");
    var rest := "\"" + tail;
    var line := "\"" + path + "\"" + " " + field + "\n";
    assert line == "\"" + (path + rest);
    assert line[1..] == path + rest;
    LexQuoted(path, rest, [], []);
    assert [] + path == path && rest[1..] == tail && tail[1..] == field + "\n";
    assert Lex(rest, Quoted('\"'), path, true, []) == Lex(tail, Word, path, true, []);
    assert [] + [path] == [path];
    assert Lex(tail, Word, path, true, []) == Lex(field + "\n", Between, [], false, [path]);
    LexField(field, path);
  }

  lemma FieldReadBack(host: string, opts: Options)
    requires HostOk(host) && Clean(opts) && opts != map[]
    ensures Safe(Field(host, opts)) && Field(host, opts) != []
    ensures HostOptions(Field(host, opts)) == Some((host, PrintOption(opts).value))
    ensures ParseOptions(PrintOption(opts).value) == Some(opts)
  {
    hide ParseOptions, PrintOption, Clean;
    OptionsReadBack(opts);
    var text, field := PrintOption(opts).value, Field(host, opts);
    assert field[|field| - 1] == ')';
    assert field[0] == host[0] && host[0] in host;
    assert field[..|field| - 1] == host + ['('] + text;
    SplitFirst(host, '(', text);
    SplitWhole(text, '(');
  }

  /** What the line of one writer or reader is parsed into. */
  function RwRecord(e: Export, h: string): Export {
    e.(root := if h in e.root then [h] else [], rw := [h], ro := [])
  }

  function RoRecord(e: Export, h: string): Export {
    e.(root := if h in e.root then [h] else [], rw := [], ro := [h])
  }

  /** The options of a line are clean. */
  lemma HostOptsClean(e: Export, m: Options, h: string, mode: string, other: string)
    requires Clean(m) && (e.auth.Some? ==> WordOk(e.auth.value)) && WordOk(mode)
    ensures Clean(HostOpts(e, WithAuth(e, m), h, mode, other))
  {
    hide WordOk;
    assert WordOk("sec") && WordOk("no_root_squash") by { KeywordsOk(); }
  }

  lemma PlainWord(s: string)
    requires forall i | 0 <= i < |s| :: 'a' <= s[i] <= 'z' || s[i] == '_'
    ensures WordOk(s)
  {
  }

  lemma KeywordsOk()
    ensures WordOk("sec") && WordOk("no_root_squash") && WordOk("rw") && WordOk("ro")
  {
    hide WordOk;
    PlainWord("sec");
    PlainWord("no_root_squash");
    PlainWord("rw");
    PlainWord("ro");
  }

  /** Taking the keywords off the options of a line leaves the options of the record. */
  lemma StripOpts(e: Export, m: Options, h: string, mode: string, other: string)
    requires m.Keys !! RESERVED && {mode, other} == {"rw", "ro"}
    ensures var opts := HostOpts(e, WithAuth(e, m), h, mode, other);
            && mode in opts && other !in opts
            && ("no_root_squash" in opts <==> h in e.root)
            && (h !in e.root ==> "root_squash" !in opts)
            && ("sec" in opts <==> e.auth.Some?) && (e.auth.Some? ==> opts["sec"] == e.auth.value)
            && "anonuid" !in opts && "anongid" !in opts
            && opts - Taken(opts) == m
  {
  }

  lemma FieldParsed(env: Env, e: Export, m: Options, h: string, mode: string, other: string)
    requires Storable(env, e) && Describes(m, e) && HostOk(h) && {mode, other} == {"rw", "ro"}
    ensures var field := Field(h, HostOpts(e, WithAuth(e, m), h, mode, other));
            && Safe(field) && field != []
            && ParseExport(env, [e.path, field]) == Record(if mode == "rw" then RwRecord(e, h) else RoRecord(e, h))
  {
    hide HostOpts, WithAuth, Clean, PrintOption, ParseOptions, HostOk, Safe, HostOptions, WordOk, HostsOk, PathOk,
         Taken;
    KeywordsOk();
    HostOptsClean(e, m, h, mode, other);
    StripOpts(e, m, h, mode, other);
    FieldReadBack(h, HostOpts(e, WithAuth(e, m), h, mode, other));
  }

  lemma RwLineRead(env: Env, e: Export, m: Options, h: string, es: seq<Export>)
    requires Storable(env, e) && Describes(m, e) && HostOk(h)
    ensures ReadLine(env, es, RwLine(e, WithAuth(e, m), h)) == Some(Add(es, RwRecord(e, h)))
  {
    hide HostOpts, WithAuth, Clean, PrintOption, HostOk, Safe, HostsOk, ShlexSplit, ParseExport, Field, Quotable,
         Add, Describes;
    FieldParsed(env, e, m, h, "rw", "ro");
    var field := Field(h, HostOpts(e, WithAuth(e, m), h, "rw", "ro"));
    if ' ' in e.path {
      LexWithSpaces(e.path, field);
    } else {
      LexBare(e.path, field);
    }
  }

  lemma RoLineRead(env: Env, e: Export, m: Options, h: string, es: seq<Export>)
    requires Storable(env, e) && Describes(m, e) && HostOk(h) && h in e.ro
    ensures ReadLine(env, es, RoLine(e, WithAuth(e, m), h)) == Some(Add(es, RoRecord(e, h)))
  {
    hide HostOpts, WithAuth, Clean, PrintOption, HostOk, Safe, HostsOk, ShlexSplit, ParseExport, Field, Quotable,
         Add, Describes;
    FieldParsed(env, e, m, h, "ro", "rw");
    LexBare(e.path, Field(h, HostOpts(e, WithAuth(e, m), h, "ro", "rw")));
  }
}
