/** Which host ends up in which list: merging two records, and reading a whole exports file
    (plugin/nfs_plugin/nfs.py). */
module NfsHosts {
  import opened Wrappers
  import opened Texts
  import opened NfsExports

  // ----- merging two records

  lemma {:induction false} RemoveAllMember(hosts: seq<string>, hs: seq<string>, h: string)
    requires Distinct(hosts)
    ensures h in RemoveAll(hosts, hs) <==> h in hosts && h !in hs
    decreases |hs|
  {
    hide Distinct, Remove;
    if hs != [] {
      RemoveDistinct(hosts, hs[0]);
      RemoveAllMember(Remove(hosts, hs[0]), hs[1..], h);
      assert hs == [hs[0]] + hs[1..];
    }
  }

  lemma {:induction false} AddAllMember(hosts: seq<string>, hs: seq<string>, h: string)
    ensures h in AddAll(hosts, hs) <==> h in hosts || h in hs
    decreases |hs|
  {
    if hs != [] {
      AddAllMember(if hs[0] in hosts then hosts else hosts + [hs[0]], hs[1..], h);
      assert hs == [hs[0]] + hs[1..];
    }
  }

  lemma MergeList(mine: seq<string>, yours: seq<string>, gone: seq<string>, h: string)
    requires Distinct(mine)
    ensures h in AddAll(RemoveAll(mine, gone), yours) <==> h in yours || (h in mine && h !in gone)
  {
    RemoveAllMember(mine, gone, h);
    AddAllMember(RemoveAll(mine, gone), yours, h);
  }

  /** A host of the merged record is in the lists where the new record has it, and in those
      where it was before unless the new record makes it a writer or a root host. */
  lemma MergedHosts(a: Export, b: Export, h: string)
    requires HostsDistinct(a)
    ensures h in Merge(a, b).ro <==> h in b.ro || (h in a.ro && h !in b.rw && h !in b.root)
    ensures h in Merge(a, b).rw <==> h in b.rw || (h in a.rw && h !in b.root)
    ensures h in Merge(a, b).root <==> h in b.root || (h in a.root && h !in b.rw)
  {
    hide Distinct, AddAll, RemoveAll;
    var gone := b.rw + b.root;
    MergeList(a.ro, b.ro, gone, h);
    MergeList(a.rw, b.rw, gone, h);
    MergeList(a.root, b.root, gone, h);
  }

  predicate Mentions(e: Export, h: string) {
    h in e.root || h in e.rw || h in e.ro
  }

  /** The host is in the same lists of both records. */
  predicate ListedAlike(a: Export, b: Export, h: string) {
    (h in a.root <==> h in b.root) && (h in a.rw <==> h in b.rw) && (h in a.ro <==> h in b.ro)
  }

  /** The new record alone decides where a host that it mentions is listed, if and only if it
      makes the host a writer or root host or the host was neither before. */
  lemma NewLineDecidesIff(a: Export, b: Export, h: string)
    requires HostsDistinct(a) && Mentions(b, h)
    ensures ListedAlike(Merge(a, b), b, h) <==> h in b.rw || h in b.root || (h !in a.rw && h !in a.root)
  {
    MergedHosts(a, b, h);
    hide Merge, HostsDistinct;
  }

  // ----- what records are merged by

  /** Path, security flavour, anonymous ids and the set of options. */
  datatype Key = Key(path: string, auth: Option<string>, uid: int, gid: int, options: set<string>)

  function KeyOf(e: Export): Key {
    Key(e.path, e.auth, e.anonuid, e.anongid,
        if e.options.None? then {} else set p | p in Split(e.options.value, ','))
  }

  lemma MatchesIff(a: Export, b: Export)
    ensures Matches(a, b) <==> KeyOf(a) == KeyOf(b)
  {
  }

  lemma MergeKey(a: Export, b: Export)
    ensures KeyOf(Merge(a, b)) == KeyOf(a)
  {
  }

  // ----- the records of a file

  /** The records of the lines, None for an exception. */
  function Records(env: Env, lines: seq<string>): Option<seq<Export>> {
    if lines == [] then Some([])
    else
      match ShlexSplit(lines[0])
      case None => None
      case Some(parts) =>
        match (ParseExport(env, parts), Records(env, lines[1..]))
        case (Record(e), Some(rest)) => Some([e] + rest)
        case (Nothing, Some(rest)) => Some(rest)
        case _ => None
  }

  /** Records added one after the other. */
  function Load(es: seq<Export>, recs: seq<Export>): seq<Export>
    decreases |recs|
  {
    if recs == [] then es else Load(Add(es, recs[0]), recs[1..])
  }

  lemma {:induction false} ReadIsLoad(env: Env, es: seq<Export>, lines: seq<string>)
    ensures match Records(env, lines)
            case None => ReadLines(env, es, lines) == None
            case Some(recs) => ReadLines(env, es, lines) == Some(Load(es, recs))
    decreases |lines|
  {
    hide ShlexSplit, ParseExport, Add;
    if lines != [] && ShlexSplit(lines[0]).Some? {
      match ParseExport(env, ShlexSplit(lines[0]).value) {
        case Record(e) =>
          ReadIsLoad(env, Add(es, e), lines[1..]);
          if Records(env, lines[1..]).Some? {
            var rest := Records(env, lines[1..]).value;
            assert ([e] + rest)[1..] == rest;
          }
        case Nothing => ReadIsLoad(env, es, lines[1..]);
        case Raised =>
      }
    }
  }

  lemma {:induction false} RecordsDistinct(env: Env, lines: seq<string>)
    ensures Records(env, lines).Some? ==> forall r | r in Records(env, lines).value :: HostsDistinct(r)
  {
    hide ShlexSplit, ParseExport, HostsDistinct;
    if lines != [] && ShlexSplit(lines[0]).Some? {
      ParsedDistinct(env, ShlexSplit(lines[0]).value);
      RecordsDistinct(env, lines[1..]);
    }
  }

  lemma {:induction false} LoadLast(es: seq<Export>, recs: seq<Export>)
    requires recs != []
    ensures var n := |recs| - 1; Load(es, recs) == Add(Load(es, recs[..n]), recs[n])
    decreases |recs|
  {
    hide Add;
    if |recs| > 1 {
      var n := |recs| - 1;
      assert recs[1..][..n - 1] == recs[..n][1..] && recs[..n][0] == recs[0];
      LoadLast(Add(es, recs[0]), recs[1..]);
    }
  }

  // ----- where a host is listed

  /** Line `i` makes the host a reader of the export and no later line of that export makes
      it a writer or root host. */
  predicate ReaderSince(recs: seq<Export>, key: Key, h: string, i: nat) {
    && i < |recs| && KeyOf(recs[i]) == key && h in recs[i].ro
    && forall j | i < j < |recs| && KeyOf(recs[j]) == key :: h !in recs[j].rw && h !in recs[j].root
  }

  /** Line `i` makes it a writer and no later line makes it a root host only. */
  predicate WriterSince(recs: seq<Export>, key: Key, h: string, i: nat) {
    && i < |recs| && KeyOf(recs[i]) == key && h in recs[i].rw
    && forall j | i < j < |recs| && KeyOf(recs[j]) == key :: h in recs[j].root ==> h in recs[j].rw
  }

  /** Line `i` makes it a root host and no later line makes it a writer only. */
  predicate RootSince(recs: seq<Export>, key: Key, h: string, i: nat) {
    && i < |recs| && KeyOf(recs[i]) == key && h in recs[i].root
    && forall j | i < j < |recs| && KeyOf(recs[j]) == key :: h in recs[j].rw ==> h in recs[j].root
  }

  predicate IsReader(recs: seq<Export>, key: Key, h: string) {
    exists i: nat | i < |recs| :: ReaderSince(recs, key, h, i)
  }

  predicate IsWriter(recs: seq<Export>, key: Key, h: string) {
    exists i: nat | i < |recs| :: WriterSince(recs, key, h, i)
  }

  predicate IsRoot(recs: seq<Export>, key: Key, h: string) {
    exists i: nat | i < |recs| :: RootSince(recs, key, h, i)
  }

  /** A line of another export changes nothing. */
  lemma OtherLine(recs: seq<Export>, e: Export, key: Key, h: string)
    requires KeyOf(e) != key
    ensures IsReader(recs + [e], key, h) <==> IsReader(recs, key, h)
    ensures IsWriter(recs + [e], key, h) <==> IsWriter(recs, key, h)
    ensures IsRoot(recs + [e], key, h) <==> IsRoot(recs, key, h)
  {
    hide KeyOf;
    var all := recs + [e];
    forall i: nat | i < |recs| ensures ReaderSince(all, key, h, i) <==> ReaderSince(recs, key, h, i) {
      assert forall j | 0 <= j < |recs| :: all[j] == recs[j];
    }
    forall i: nat | i < |recs| ensures WriterSince(all, key, h, i) <==> WriterSince(recs, key, h, i) {
      assert forall j | 0 <= j < |recs| :: all[j] == recs[j];
    }
    forall i: nat | i < |recs| ensures RootSince(all, key, h, i) <==> RootSince(recs, key, h, i) {
      assert forall j | 0 <= j < |recs| :: all[j] == recs[j];
    }
  }

  /** A line of the export. */
  lemma ReaderLine(recs: seq<Export>, e: Export, h: string)
    ensures IsReader(recs + [e], KeyOf(e), h) <==>
            h in e.ro || (IsReader(recs, KeyOf(e), h) && h !in e.rw && h !in e.root)
  {
    hide KeyOf;
    var all, key, n := recs + [e], KeyOf(e), |recs|;
    assert all[n] == e;
    forall i: nat | i < n
      ensures ReaderSince(all, key, h, i) <==> ReaderSince(recs, key, h, i) && h !in e.rw && h !in e.root
    {
      assert forall j | 0 <= j < n :: all[j] == recs[j];
    }
    assert h in e.ro <==> ReaderSince(all, key, h, n);
  }

  lemma WriterLine(recs: seq<Export>, e: Export, h: string)
    ensures IsWriter(recs + [e], KeyOf(e), h) <==> h in e.rw || (IsWriter(recs, KeyOf(e), h) && h !in e.root)
  {
    hide KeyOf;
    var all, key, n := recs + [e], KeyOf(e), |recs|;
    assert all[n] == e;
    forall i: nat | i < n
      ensures WriterSince(all, key, h, i) <==> WriterSince(recs, key, h, i) && (h in e.root ==> h in e.rw)
    {
      assert forall j | 0 <= j < n :: all[j] == recs[j];
    }
    assert h in e.rw <==> WriterSince(all, key, h, n);
  }

  lemma RootLine(recs: seq<Export>, e: Export, h: string)
    ensures IsRoot(recs + [e], KeyOf(e), h) <==> h in e.root || (IsRoot(recs, KeyOf(e), h) && h !in e.rw)
  {
    hide KeyOf;
    var all, key, n := recs + [e], KeyOf(e), |recs|;
    assert all[n] == e;
    forall i: nat | i < n
      ensures RootSince(all, key, h, i) <==> RootSince(recs, key, h, i) && (h in e.rw ==> h in e.root)
    {
      assert forall j | 0 <= j < n :: all[j] == recs[j];
    }
    assert h in e.root <==> RootSince(all, key, h, n);
  }

  /** The lists of a loaded record are those that the lines say. */
  predicate Lists(recs: seq<Export>, x: Export, h: string) {
    && (h in x.ro <==> IsReader(recs, KeyOf(x), h))
    && (h in x.rw <==> IsWriter(recs, KeyOf(x), h))
    && (h in x.root <==> IsRoot(recs, KeyOf(x), h))
  }

  lemma ListsMerged(recs: seq<Export>, a: Export, e: Export, h: string)
    requires HostsDistinct(a) && KeyOf(a) == KeyOf(e) && Lists(recs, a, h)
    ensures Lists(recs + [e], Merge(a, e), h)
  {
    hide KeyOf, Merge, HostsDistinct, IsReader, IsWriter, IsRoot;
    MergeKey(a, e);
    MergedHosts(a, e, h);
    ReaderLine(recs, e, h);
    WriterLine(recs, e, h);
    RootLine(recs, e, h);
  }

  lemma ListsFirst(recs: seq<Export>, e: Export, h: string)
    requires forall r | r in recs :: KeyOf(r) != KeyOf(e)
    ensures Lists(recs + [e], e, h)
  {
    hide KeyOf;
    ReaderLine(recs, e, h);
    WriterLine(recs, e, h);
    RootLine(recs, e, h);
  }

  lemma ListsOther(recs: seq<Export>, x: Export, e: Export, h: string)
    requires KeyOf(x) != KeyOf(e) && Lists(recs, x, h)
    ensures Lists(recs + [e], x, h)
  {
    hide KeyOf, IsReader, IsWriter, IsRoot;
    OtherLine(recs, e, KeyOf(x), h);
  }

  function Keys(es: seq<Export>): set<Key> {
    set x | x in es :: KeyOf(x)
  }

  /** One record for each key of a line, and none else. */
  predicate Represents(es: seq<Export>, recs: seq<Export>) {
    && (forall i, j | 0 <= i < j < |es| :: KeyOf(es[i]) != KeyOf(es[j]))
    && (forall x | x in es :: HostsDistinct(x))
    && Keys(es) == Keys(recs)
  }

  lemma KeysMore(es: seq<Export>, e: Export)
    ensures Keys(es + [e]) == Keys(es) + {KeyOf(e)}
  {
    hide KeyOf;
    var k := es + [e];
    assert k[|es|] == e && e in k;
    forall x | x in es ensures x in k {
    }
  }

  lemma KeyAt(es: seq<Export>, i: nat)
    requires i < |es|
    ensures KeyOf(es[i]) in Keys(es)
  {
    assert es[i] in es;
  }

  lemma KeysUpdated(es: seq<Export>, i: nat, m: Export)
    requires i < |es| && KeyOf(m) == KeyOf(es[i])
    ensures Keys(es[i := m]) == Keys(es)
  {
    hide KeyOf;
    var fs := es[i := m];
    forall k | k in Keys(fs) ensures k in Keys(es) {
      var x :| x in fs && KeyOf(x) == k;
      var t :| 0 <= t < |fs| && fs[t] == x;
      KeyAt(es, t);
    }
    forall k | k in Keys(es) ensures k in Keys(fs) {
      var x :| x in es && KeyOf(x) == k;
      var t :| 0 <= t < |es| && es[t] == x;
      KeyAt(fs, t);
    }
  }

  lemma RepresentsMerged(es: seq<Export>, recs: seq<Export>, i: nat, e: Export)
    requires Represents(es, recs) && i < |es| && KeyOf(es[i]) == KeyOf(e)
    ensures Represents(es[i := Merge(es[i], e)], recs + [e])
  {
    hide KeyOf, Merge, HostsDistinct, Keys;
    var m := Merge(es[i], e);
    MergeKey(es[i], e);
    MergeDistinct(es[i], e);
    KeysUpdated(es, i, m);
    KeysMore(recs, e);
    KeyAt(es, i);
  }

  lemma RepresentsAppended(es: seq<Export>, recs: seq<Export>, e: Export)
    requires Represents(es, recs) && HostsDistinct(e) && forall x | x in es :: KeyOf(x) != KeyOf(e)
    ensures Represents(es + [e], recs + [e])
  {
    hide KeyOf, HostsDistinct, Keys;
    var fs := es + [e];
    forall i, j | 0 <= i < j < |fs| ensures KeyOf(fs[i]) != KeyOf(fs[j]) {
      assert fs[i] in es;
    }
    KeysMore(es, e);
    KeysMore(recs, e);
  }

  lemma AddRepresents(es: seq<Export>, recs: seq<Export>, e: Export, h: string)
    requires Represents(es, recs) && HostsDistinct(e) && forall x | x in es :: Lists(recs, x, h)
    ensures Represents(Add(es, e), recs + [e])
    ensures forall x | x in Add(es, e) :: Lists(recs + [e], x, h)
  {
    hide KeyOf, Merge, HostsDistinct, Add, Lists, Matches;
    AddShape(es, e);
    forall x: Export {
      MatchesIff(e, x);
    }
    if i: int :| 0 <= i < |es| && Matches(e, es[i]) && Add(es, e) == es[i := Merge(es[i], e)] {
      RepresentsMerged(es, recs, i, e);
      forall x | x in Add(es, e) ensures Lists(recs + [e], x, h) {
        var k :| 0 <= k < |es| && Add(es, e)[k] == x;
        assert es[k] in es;
        if k == i {
          ListsMerged(recs, es[i], e, h);
        } else {
          ListsOther(recs, x, e, h);
        }
      }
    } else {
      RepresentsAppended(es, recs, e);
      forall x | x in Add(es, e) ensures Lists(recs + [e], x, h) {
        if x in es {
          ListsOther(recs, x, e, h);
        } else {
          assert forall r | r in recs :: KeyOf(r) in Keys(recs);
          ListsFirst(recs, e, h);
        }
      }
    }
  }

  lemma {:induction false} LoadRepresents(recs: seq<Export>, h: string)
    requires forall r | r in recs :: HostsDistinct(r)
    ensures Represents(Load([], recs), recs) && forall x | x in Load([], recs) :: Lists(recs, x, h)
    decreases |recs|
  {
    hide Add, Lists, HostsDistinct, Represents;
    if recs == [] {
      NothingRepresents();
    } else {
      var n := |recs| - 1;
      LoadLast([], recs);
      LoadRepresents(recs[..n], h);
      AddRepresents(Load([], recs[..n]), recs[..n], recs[n], h);
      assert recs[..n] + [recs[n]] == recs;
    }
  }

  lemma NothingRepresents()
    ensures Represents([], [])
  {
  }

  /** In the list loaded from any file there is one record for each path, security flavour,
      anonymous ids and set of options that a line has, and none else.  A host is a reader
      in it exactly when some line says so and no later line makes it a writer or root
      host; it is a writer exactly when some line says so and no later one makes it only a
      root host, and a root host exactly when some line says so and no later one makes it
      only a writer. */
  lemma LoadedHosts(env: Env, text: string, h: string)
    requires ReadExports(env, text).Some?
    ensures Records(env, Lines(text)).Some?
    ensures var recs, es := Records(env, Lines(text)).value, ReadExports(env, text).value;
            Represents(es, recs) && forall x | x in es :: Lists(recs, x, h)
  {
    hide ReadLines, Records, Represents, Lists, HostsDistinct, Lines, Load;
    ReadIsLoad(env, [], Lines(text));
    RecordsDistinct(env, Lines(text));
    LoadRepresents(Records(env, Lines(text)).value, h);
  }

  /** The last line of a host need not decide: a writer that a later line makes a reader is
      in both lists. */
  lemma WriterStays(e: Export, h: string)
    ensures var r := Load([], [e.(root := [], rw := [h], ro := []), e.(root := [], rw := [], ro := [h])]);
            |r| == 1 && r[0].rw == [h] && r[0].ro == [h]
  {
    var a, b := e.(root := [], rw := [h], ro := []), e.(root := [], rw := [], ro := [h]);
    assert Matches(b, a);
    assert Add([], a) == [a];
    assert [a, b][1..] == [b];
    assert Load([], [a, b]) == Load([a], [b]);
    assert Add([a], b) == [Merge(a, b)] + [];
    assert [b][1..] == [] && Load([a], [b]) == Load([Merge(a, b)], []);
    assert Merge(a, b).rw == AddAll(RemoveAll([h], []), []) == [h];
    assert Merge(a, b).ro == AddAll(RemoveAll([], []), [h]);
    assert [h][1..] == [] && AddAll([], [h]) == AddAll([h], []) == [h];
  }
}
