/** The exports file of plugin/nfs_plugin/nfs.py: how its lines are split, parsed and merged
    into export records, and how records are written out, one line per host. */
module NfsExports {
  import opened Wrappers
  import opened Texts

  /** An `NfsExport` without its id, which is a hash of the other fields. */
  datatype Export = Export(fsid: string, path: string, auth: Option<string>,
                           root: seq<string>, rw: seq<string>, ro: seq<string>,
                           anonuid: int, anongid: int, options: Option<string>)

  const ANON_NA := -1

  /** What the system says: the file system of a path, Python's int(), and os.path.isdir. */
  datatype Env = Env(fsid: string -> Option<string>, toInt: string -> Option<int>, isDir: string -> bool)

  // ----- shlex.split with comments on, in POSIX mode

  datatype Mode = Between | Word | Quoted(q: char) | Escaped(back: Option<char>)

  predicate Whitespace(c: char) {
    c == ' ' || c == '\t' || c == '\r' || c == '\n'
  }

  predicate Quote(c: char) {
    c == '\"' || c == '\''
  }

  function Emit(acc: seq<string>, token: string, quoted: bool): seq<string> {
    if token != [] || quoted then acc + [token] else acc
  }

  /** The words of a line, None for a ValueError (an open quote or a final backslash). */
  function Lex(s: string, mode: Mode, token: string, quoted: bool, acc: seq<string>): Option<seq<string>>
    decreases |s|
  {
    if s == [] then
      if mode.Quoted? || mode.Escaped? then None else Some(Emit(acc, token, quoted))
    else
      var c, rest := s[0], s[1..];
      match mode
      case Quoted(q) =>
        if c == q then Lex(rest, Word, token, true, acc)
        else if c == '\\' && q == '\"' then Lex(rest, Escaped(Some(q)), token, true, acc)
        else Lex(rest, mode, token + [c], true, acc)
      case Escaped(Some(q)) =>
        Lex(rest, Quoted(q), token + (if c != '\\' && c != q then ['\\', c] else [c]), quoted, acc)
      case Escaped(None) => Lex(rest, Word, token + [c], quoted, acc)
      case _ =>
        if Whitespace(c) then Lex(rest, Between, [], false, Emit(acc, token, quoted))
        else if c == '#' then Some(Emit(acc, token, quoted))
        else if c == '\\' then Lex(rest, Escaped(None), token, quoted, acc)
        else if Quote(c) then Lex(rest, Quoted(c), token, true, acc)
        else Lex(rest, Word, token + [c], quoted, acc)
  }

  function ShlexSplit(line: string): Option<seq<string>> {
    Lex(line, Between, [], false, [])
  }

  // ----- options

  type Options = map<string, string>

  /** `_parse_options` from the pieces on; two equal signs in a piece are a ValueError. */
  function ParsePieces(ps: seq<string>, acc: Options): Option<Options> {
    if ps == [] then Some(acc)
    else
      var kv := Split(ps[0], '=');
      if |kv| == 1 then ParsePieces(ps[1..], acc[ps[0] := ps[0]])
      else if |kv| == 2 then ParsePieces(ps[1..], acc[kv[0] := kv[1]])
      else None
  }

  function ParseOptions(s: string): Option<Options> {
    ParsePieces(Split(s, ','), map[])
  }

  predicate Least(s: set<string>, x: string) {
    x in s && forall y | y in s :: y == x || Less(x, y)
  }

  lemma {:induction false} LeastExists(s: set<string>)
    requires s != {}
    ensures exists x :: Least(s, x)
  {
    var z :| z in s;
    if s == {z} {
      assert Least(s, z);
    } else {
      LeastExists(s - {z});
      var x :| Least(s - {z}, x);
      LessTotal(x, z);
      if Less(x, z) {
        assert Least(s, x);
      } else {
        forall y | y in s ensures y == z || Less(z, y) {
          if y != z && y != x {
            LessTransitive(z, x, y);
          }
        }
        assert Least(s, z);
      }
    }
  }

  lemma LeastUnique(s: set<string>, x: string, y: string)
    requires Least(s, x) && Least(s, y)
    ensures x == y
  {
    LessAsymmetric(x, y);
  }

  /** Python's sorted() on the keys. */
  function SortedKeys(s: set<string>): (r: seq<string>)
    ensures forall k :: k in r <==> k in s
  {
    if s == {} then []
    else
      LeastExists(s);
      assert forall x, y | Least(s, x) && Least(s, y) :: x == y by {
        forall x, y | Least(s, x) && Least(s, y) ensures x == y {
          LeastUnique(s, x, y);
        }
      }
      var x :| Least(s, x);
      [x] + SortedKeys(s - {x})
  }

  function PrintPiece(k: string, v: string): string {
    if k == v then k else k + "=" + v
  }

  function PrintPieces(ks: seq<string>, m: Options): seq<string>
    requires forall k | k in ks :: k in m
  {
    if ks == [] then [] else [PrintPiece(ks[0], m[ks[0]])] + PrintPieces(ks[1..], m)
  }

  /** `_print_option`. */
  function PrintOption(m: Options): (r: Option<string>)
    ensures r.None? <==> m == map[]
  {
    if m == map[] then None else Some(Join(PrintPieces(SortedKeys(m.Keys), m), ','))
  }

  // ----- one line

  datatype Parsed = Nothing | Record(e: Export) | Raised

  /** The host and the option text of the second word of a line. */
  function HostOptions(field: string): Option<(string, string)> {
    if ')' !in field then Some((field, ""))
    else if field[0] != '(' then
      var ps := Split(field[..|field| - 1], '(');
      if |ps| == 2 then Some((ps[0], ps[1])) else None
    else
      assert field != ['('];
      Some(("*", field[1..|field| - 1]))
  }

  /** The options that the parser takes out of the dictionary. */
  function Taken(options: Options): set<string> {
    {"rw", "ro", "sec", "anonuid", "anongid",
     if "no_root_squash" in options then "no_root_squash" else "root_squash"}
  }

  /** The record of one host. */
  function HostRecord(env: Env, path: string, host: string, options: Options): Parsed {
    var rw := if "rw" in options then [host] else [];
    var ro := if "ro" in options then [host] else [];
    var root := if "no_root_squash" in options then [host] else [];
    var auth := if "sec" in options then Some(options["sec"]) else None;
    var uid := if "anonuid" in options then env.toInt(options["anonuid"]) else Some(ANON_NA);
    var gid := if "anongid" in options then env.toInt(options["anongid"]) else Some(ANON_NA);
    if uid.None? || gid.None? then Raised
    else if env.fsid(path).None? then Nothing
    else
      Record(Export(env.fsid(path).value, path, auth, root, rw, ro, uid.value, gid.value,
                    PrintOption(options - Taken(options))))
  }

  /** `_parse_export`. */
  function ParseExport(env: Env, parts: seq<string>): Parsed {
    if |parts| < 1 then Nothing
    else
      match HostOptions(if |parts| > 1 then parts[1] else "*")
      case None => Raised
      case Some((host, text)) =>
        match ParseOptions(text)
        case None => Raised
        case Some(options) => HostRecord(env, parts[0], host, options)
  }

  // ----- matching and merging

  function OptionSet(options: Option<string>): set<string> {
    if options.None? then {} else set p | p in Split(options.value, ',')
  }

  /** `_match_export`. */
  predicate Matches(a: Export, b: Export) {
    && a.path == b.path && a.auth == b.auth
    && a.anonuid == b.anonuid && a.anongid == b.anongid
    && OptionSet(a.options) == OptionSet(b.options)
  }

  /** Python's list.remove, if the host is there. */
  function Remove(hosts: seq<string>, h: string): seq<string> {
    if hosts == [] then [] else if hosts[0] == h then hosts[1..] else [hosts[0]] + Remove(hosts[1..], h)
  }

  function RemoveAll(hosts: seq<string>, hs: seq<string>): seq<string>
    decreases |hs|
  {
    if hs == [] then hosts else RemoveAll(Remove(hosts, hs[0]), hs[1..])
  }

  /** Appends the hosts that are not there yet. */
  function AddAll(hosts: seq<string>, hs: seq<string>): seq<string>
    decreases |hs|
  {
    if hs == [] then hosts
    else AddAll(if hs[0] in hosts then hosts else hosts + [hs[0]], hs[1..])
  }

  /** `_merge_exports`. */
  function Merge(a: Export, b: Export): Export {
    var gone := b.rw + b.root;
    a.(root := AddAll(RemoveAll(a.root, gone), b.root),
       rw := AddAll(RemoveAll(a.rw, gone), b.rw),
       ro := AddAll(RemoveAll(a.ro, gone), b.ro))
  }

  // ----- the whole file

  /** Merges a new record into the first one it matches, or appends it. */
  function Add(es: seq<Export>, e: Export): seq<Export> {
    if es == [] then [e]
    else if Matches(e, es[0]) then [Merge(es[0], e)] + es[1..]
    else [es[0]] + Add(es[1..], e)
  }

  /** One round of the loop in `_read_exports`, None for an exception. */
  function ReadLine(env: Env, es: seq<Export>, line: string): Option<seq<Export>> {
    match ShlexSplit(line)
    case None => None
    case Some(parts) =>
      match ParseExport(env, parts)
      case Raised => None
      case Nothing => Some(es)
      case Record(e) => Some(Add(es, e))
  }

  function ReadLines(env: Env, es: seq<Export>, lines: seq<string>): Option<seq<Export>>
    decreases |lines|
  {
    if lines == [] then Some(es)
    else
      match ReadLine(env, es, lines[0])
      case None => None
      case Some(es') => ReadLines(env, es', lines[1..])
  }

  /** The lines of a file, each with its terminator. */
  function Lines(text: string): (r: seq<string>)
  {
    if text == [] then []
    else
      var r := Lines(text[1..]);
      if text[0] == '\n' || text[0] == '\r' || r == [] then [[text[0]]] + r
      else [[text[0]] + r[0]] + r[1..]
  }

  function ReadExports(env: Env, text: string): Option<seq<Export>> {
    ReadLines(env, [], Lines(text))
  }

  // ----- what every loaded list satisfies

  predicate Distinct(hosts: seq<string>) {
    forall i, j | 0 <= i < j < |hosts| :: hosts[i] != hosts[j]
  }

  predicate HostsDistinct(e: Export) {
    Distinct(e.root) && Distinct(e.rw) && Distinct(e.ro)
  }

  predicate Apart(es: seq<Export>) {
    forall i, j | 0 <= i < j < |es| :: !Matches(es[i], es[j])
  }

  lemma {:induction false} RemoveDistinct(hosts: seq<string>, h: string)
    requires Distinct(hosts)
    ensures Distinct(Remove(hosts, h))
    ensures forall x :: x in Remove(hosts, h) <==> x in hosts && x != h
  {
    if hosts != [] {
      var rest := Remove(hosts[1..], h);
      RemoveDistinct(hosts[1..], h);
      assert hosts[0] !in hosts[1..];
      assert hosts[0] !in rest;
      assert forall x | x in hosts :: x == hosts[0] || x in hosts[1..];
    }
  }

  lemma {:induction false} RemoveAllDistinct(hosts: seq<string>, hs: seq<string>)
    requires Distinct(hosts)
    ensures Distinct(RemoveAll(hosts, hs))
    decreases |hs|
  {
    if hs != [] {
      RemoveDistinct(hosts, hs[0]);
      RemoveAllDistinct(Remove(hosts, hs[0]), hs[1..]);
    }
  }

  lemma {:induction false} AddAllDistinct(hosts: seq<string>, hs: seq<string>)
    requires Distinct(hosts)
    ensures Distinct(AddAll(hosts, hs))
    decreases |hs|
  {
    if hs != [] {
      AddAllDistinct(if hs[0] in hosts then hosts else hosts + [hs[0]], hs[1..]);
    }
  }

  lemma MergeDistinct(a: Export, b: Export)
    requires HostsDistinct(a)
    ensures HostsDistinct(Merge(a, b))
  {
    hide Distinct;
    var gone := b.rw + b.root;
    RemoveAllDistinct(a.root, gone);
    RemoveAllDistinct(a.rw, gone);
    RemoveAllDistinct(a.ro, gone);
    AddAllDistinct(RemoveAll(a.root, gone), b.root);
    AddAllDistinct(RemoveAll(a.rw, gone), b.rw);
    AddAllDistinct(RemoveAll(a.ro, gone), b.ro);
  }

  /** Merging keeps what records are matched by. */
  lemma MergeKeepsKey(a: Export, b: Export, c: Export)
    ensures Matches(Merge(a, b), c) == Matches(a, c) && Matches(c, Merge(a, b)) == Matches(c, a)
  {
  }

  /** Adding changes the first matching record or appends. */
  lemma {:induction false} AddShape(es: seq<Export>, e: Export)
    ensures (Add(es, e) == es + [e] && forall x | x in es :: !Matches(e, x)) ||
            exists i | 0 <= i < |es| :: Matches(e, es[i]) && Add(es, e) == es[i := Merge(es[i], e)]
    decreases |es|
  {
    hide Matches, Merge;
    if es == [] {
    } else if Matches(e, es[0]) {
      assert Add(es, e) == es[0 := Merge(es[0], e)];
    } else {
      AddShape(es[1..], e);
      if i: int :| && 0 <= i < |es| - 1 && Matches(e, es[1..][i])
                   && Add(es[1..], e) == es[1..][i := Merge(es[1..][i], e)] {
        assert Add(es, e) == es[i + 1 := Merge(es[i + 1], e)];
      } else {
        assert es == [es[0]] + es[1..];
        assert Add(es, e) == es + [e];
      }
    }
  }

  predicate Loaded(es: seq<Export>) {
    Apart(es) && forall x | x in es :: HostsDistinct(x)
  }

  lemma AddKeepsLoaded(es: seq<Export>, e: Export)
    requires Loaded(es) && HostsDistinct(e)
    ensures Loaded(Add(es, e))
  {
    hide Add, Merge, HostsDistinct, OptionSet;
    AddShape(es, e);
    if i: int :| 0 <= i < |es| && Matches(e, es[i]) && Add(es, e) == es[i := Merge(es[i], e)] {
      MergeDistinct(es[i], e);
      forall x: Export {
        MergeKeepsKey(es[i], e, x);
      }
    } else {
      assert forall i | 0 <= i < |es| :: es[i] in es && !Matches(es[i], e);
    }
  }

  lemma ParsedDistinct(env: Env, parts: seq<string>)
    ensures var p := ParseExport(env, parts); p.Record? ==> HostsDistinct(p.e)
  {
    hide HostOptions, ParseOptions, PrintOption;
  }

  lemma {:induction false} ReadKeepsLoaded(env: Env, es: seq<Export>, lines: seq<string>)
    requires Loaded(es)
    ensures var r := ReadLines(env, es, lines); r.Some? ==> Loaded(r.value)
    decreases |lines|
  {
    hide Loaded, ShlexSplit, ParseExport, Add;
    if lines != [] {
      var parts := ShlexSplit(lines[0]);
      if parts.Some? {
        ParsedDistinct(env, parts.value);
        var p := ParseExport(env, parts.value);
        if p.Record? {
          AddKeepsLoaded(es, p.e);
          ReadKeepsLoaded(env, Add(es, p.e), lines[1..]);
        } else if p.Nothing? {
          ReadKeepsLoaded(env, es, lines[1..]);
        }
      }
    }
  }

  /** Whatever the file, a list that loads has no two records that match and no host twice
      in a list of a record. */
  lemma LoadedExportsDistinct(env: Env, text: string)
    ensures var r := ReadExports(env, text);
            r.Some? ==> Apart(r.value) && forall x | x in r.value :: HostsDistinct(x)
  {
    hide ReadLines, HostsDistinct, Matches;
    ReadKeepsLoaded(env, [], Lines(text));
  }
}
