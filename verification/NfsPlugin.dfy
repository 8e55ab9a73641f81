/** The loops of plugin/nfs_plugin/nfs.py that change records, the list and the file,
    proved to compute the functions of `NfsExports` and `NfsFile`. */
module NfsPlugin {
  import opened Wrappers
  import opened NfsExports
  import opened NfsFile

  /** An `NfsExport` object: its host lists are changed in place. */
  class NfsExport {
    const base: Export
    var root: seq<string>
    var rw: seq<string>
    var ro: seq<string>

    constructor (e: Export)
      ensures Value() == e
    {
      base, root, rw, ro := e, e.root, e.rw, e.ro;
    }

    ghost function Value(): Export
      reads this
    {
      base.(root := root, rw := rw, ro := ro)
    }
  }

  /** Removes every host of `gone` from the three lists. */
  method DropHosts(a: NfsExport, gone: seq<string>)
    modifies a
    ensures a.root == RemoveAll(old(a.root), gone)
    ensures a.rw == RemoveAll(old(a.rw), gone)
    ensures a.ro == RemoveAll(old(a.ro), gone)
  {
    for i := 0 to |gone|
      invariant RemoveAll(a.root, gone[i..]) == RemoveAll(old(a.root), gone)
      invariant RemoveAll(a.rw, gone[i..]) == RemoveAll(old(a.rw), gone)
      invariant RemoveAll(a.ro, gone[i..]) == RemoveAll(old(a.ro), gone)
    {
      assert gone[i..][0] == gone[i] && gone[i..][1..] == gone[i + 1..];
      a.root := Remove(a.root, gone[i]);
      a.ro := Remove(a.ro, gone[i]);
      a.rw := Remove(a.rw, gone[i]);
    }
  }

  method AppendNew(hosts: seq<string>, hs: seq<string>) returns (r: seq<string>)
    ensures r == AddAll(hosts, hs)
  {
    r := hosts;
    for i := 0 to |hs|
      invariant AddAll(r, hs[i..]) == AddAll(hosts, hs)
    {
      assert hs[i..][0] == hs[i] && hs[i..][1..] == hs[i + 1..];
      if hs[i] !in r {
        r := r + [hs[i]];
      }
    }
  }

  /** `_merge_exports`. */
  method MergeExports(a: NfsExport, b: NfsExport)
    requires a != b
    modifies a
    ensures a.Value() == Merge(old(a.Value()), b.Value())
  {
    DropHosts(a, b.rw + b.root);
    a.root := AppendNew(a.root, b.root);
    a.rw := AppendNew(a.rw, b.rw);
    a.ro := AppendNew(a.ro, b.ro);
  }

  lemma {:induction false} FirstMatch(es: seq<Export>, e: Export, i: nat)
    requires i <= |es| && forall k | 0 <= k < i :: !Matches(e, es[k])
    ensures if i == |es| then Add(es, e) == es + [e]
            else Matches(e, es[i]) ==> Add(es, e) == es[i := Merge(es[i], e)]
    decreases |es|
  {
    hide Matches, Merge;
    if i > 0 {
      FirstMatch(es[1..], e, i - 1);
    }
  }

  /** The inner loop of `_read_exports`: once merged, the new record is gone. */
  method AddExport(exports: seq<Export>, e: Export) returns (r: seq<Export>)
    ensures r == Add(exports, e)
  {
    hide Matches, Merge, Add;
    r := exports;
    var pending := true;
    for idx := 0 to |exports|
      invariant pending ==> r == exports && forall k | 0 <= k < idx :: !Matches(e, exports[k])
      invariant !pending ==> |r| == |exports| && r == Add(exports, e)
    {
      if pending && Matches(e, r[idx]) {
        FirstMatch(exports, e, idx);
        r := r[idx := Merge(r[idx], e)];
        pending := false;
      }
    }
    if pending {
      FirstMatch(exports, e, |exports|);
      r := r + [e];
    }
  }

  /** `_read_exports`. */
  method ReadExportsFile(env: Env, lines: seq<string>) returns (r: Option<seq<Export>>)
    ensures r == ReadLines(env, [], lines)
  {
    hide ShlexSplit, ParseExport, Add;
    var exports: seq<Export> := [];
    for i := 0 to |lines|
      invariant ReadLines(env, exports, lines[i..]) == ReadLines(env, [], lines)
    {
      assert lines[i..][0] == lines[i] && lines[i..][1..] == lines[i + 1..];
      var parts := ShlexSplit(lines[i]);
      if parts.None? {
        return None;
      }
      match ParseExport(env, parts.value) {
        case Raised => return None;
        case Nothing =>
        case Record(e) => exports := AddExport(exports, e);
      }
    }
    return Some(exports);
  }

  method PrintWriters(e: Export, common: Options) returns (text: string)
    ensures text == Concat(RwLines(e, common, e.rw))
  {
    hide RwLine;
    text := "";
    for i := 0 to |e.rw|
      invariant text + Concat(RwLines(e, common, e.rw[i..])) == Concat(RwLines(e, common, e.rw))
    {
      assert e.rw[i..][0] == e.rw[i] && e.rw[i..][1..] == e.rw[i + 1..];
      text := text + RwLine(e, common, e.rw[i]);
    }
  }

  method PrintReaders(e: Export, common: Options) returns (text: string)
    ensures text == Concat(RoLines(e, common, e.ro))
  {
    hide RoLine;
    text := "";
    for i := 0 to |e.ro|
      invariant text + Concat(RoLines(e, common, e.ro[i..])) == Concat(RoLines(e, common, e.ro))
    {
      assert e.ro[i..][0] == e.ro[i] && e.ro[i..][1..] == e.ro[i + 1..];
      text := text + RoLine(e, common, e.ro[i]);
    }
  }

  lemma {:induction false} ConcatPlus(a: seq<string>, b: seq<string>)
    ensures Concat(a + b) == Concat(a) + Concat(b)
  {
    if a == [] {
      assert a + b == b;
    } else {
      assert (a + b)[1..] == a[1..] + b;
      ConcatPlus(a[1..], b);
    }
  }

  /** The lines of one export, or the exception. */
  method PrintExport(env: Env, e: Export) returns (r: Option<string>)
    ensures match ExportLines(env, e) case None => r == None case Some(ls) => r == Some(Concat(ls))
  {
    hide RwLines, RoLines;
    var m := if e.options.None? then Some(map[]) else ParseOptions(e.options.value);
    if m.None? || !env.isDir(e.path) || env.fsid(e.path) != Some(e.fsid) {
      return None;
    }
    if (e.anonuid != ANON_NA || e.anongid != ANON_NA) && e.rw + e.ro != [] {
      return None;
    }
    var common := WithAuth(e, m.value);
    var a := PrintWriters(e, common);
    var b := PrintReaders(e, common);
    ConcatPlus(RwLines(e, common, e.rw), RoLines(e, common, e.ro));
    return Some(a + b);
  }

  /** `_write_exports`: the text of the file. */
  method WriteExportsFile(env: Env, es: seq<Export>) returns (r: Option<string>)
    ensures r == WriteExports(env, es)
  {
    hide ExportLines;
    var text := HEADER;
    for i := 0 to |es|
      invariant AllLines(env, es).None? <==> AllLines(env, es[i..]).None?
      invariant AllLines(env, es).Some? ==>
                  text + Concat(AllLines(env, es[i..]).value) == HEADER + Concat(AllLines(env, es).value)
    {
      assert es[i..][0] == es[i] && es[i..][1..] == es[i + 1..];
      var t := PrintExport(env, es[i]);
      if t.None? {
        return None;
      }
      if AllLines(env, es).Some? {
        ConcatPlus(ExportLines(env, es[i]).value, AllLines(env, es[i + 1..]).value);
      }
      text := text + t.value;
    }
    assert AllLines(env, es[|es|..]) == Some([]) && text + [] == text;
    return Some(text);
  }
}
