/** Reading the exports file that was written restores the list. */
module NfsRoundTrip {
  import opened Wrappers
  import opened Texts
  import opened NfsExports
  import opened NfsFile

  // ----- merging the lines of one export

  /** The hosts that are also root hosts, in order. */
  function Keep(hosts: seq<string>, root: seq<string>): (r: seq<string>)
    ensures forall h :: h in r <==> h in hosts && h in root
  {
    if hosts == [] then []
    else
      var n := |hosts| - 1;
      Keep(hosts[..n], root) + if hosts[n] in root then [hosts[n]] else []
  }

  /** The record after the lines of the first `i` writers and `j` readers. */
  function Partial(e: Export, i: nat, j: nat): Export
    requires i <= |e.rw| && j <= |e.ro|
  {
    e.(root := Keep(e.rw[..i], e.root) + Keep(e.ro[..j], e.root), rw := e.rw[..i], ro := e.ro[..j])
  }

  /** The record with its root hosts in the order in which they are written. */
  function Normal(e: Export): Export {
    e.(root := Keep(e.rw, e.root) + Keep(e.ro, e.root))
  }

  lemma {:induction false} RemoveAbsent(hosts: seq<string>, h: string)
    requires h !in hosts
    ensures Remove(hosts, h) == hosts
  {
    if hosts != [] {
      RemoveAbsent(hosts[1..], h);
    }
  }

  lemma {:induction false} RemoveAllAbsent(hosts: seq<string>, hs: seq<string>)
    requires forall h | h in hs :: h !in hosts
    ensures RemoveAll(hosts, hs) == hosts
    decreases |hs|
  {
    if hs != [] {
      assert hs[0] in hs;
      RemoveAbsent(hosts, hs[0]);
      RemoveAllAbsent(hosts, hs[1..]);
    }
  }

  lemma AddAbsent(hosts: seq<string>, hs: seq<string>)
    requires |hs| <= 1 && forall h | h in hs :: h !in hosts
    ensures AddAll(hosts, hs) == hosts + hs
  {
    if hs != [] {
      assert hs[0] in hs && hs == [hs[0]] && hs[1..] == [];
    } else {
      assert hosts + hs == hosts;
    }
  }

  lemma MergeFresh(a: Export, b: Export)
    requires |b.root| <= 1 && |b.rw| <= 1 && |b.ro| <= 1
    requires forall h | h in b.rw + b.root :: h !in a.root && h !in a.rw && h !in a.ro
    requires forall h | h in b.ro :: h !in a.ro
    ensures Merge(a, b) == a.(root := a.root + b.root, rw := a.rw + b.rw, ro := a.ro + b.ro)
  {
    hide RemoveAll, AddAll;
    RemoveAllAbsent(a.root, b.rw + b.root);
    RemoveAllAbsent(a.rw, b.rw + b.root);
    RemoveAllAbsent(a.ro, b.rw + b.root);
    AddAbsent(a.root, b.root);
    AddAbsent(a.rw, b.rw);
    AddAbsent(a.ro, b.ro);
  }

  lemma KeepNext(hosts: seq<string>, i: nat, root: seq<string>)
    requires i < |hosts|
    ensures Keep(hosts[..i + 1], root) == Keep(hosts[..i], root) + if hosts[i] in root then [hosts[i]] else []
  {
    assert hosts[..i + 1][..i] == hosts[..i];
  }

  lemma NotBefore(hosts: seq<string>, i: nat)
    requires Distinct(hosts) && i < |hosts|
    ensures hosts[i] !in hosts[..i]
  {
  }

  lemma MergeRw(e: Export, i: nat)
    requires HostsOk(e) && i < |e.rw|
    ensures Merge(Partial(e, i, 0), RwRecord(e, e.rw[i])) == Partial(e, i + 1, 0)
  {
    hide Merge, Keep, HostOk, Distinct;
    NotBefore(e.rw, i);
    assert e.ro[..0] == [];
    var a, b := Partial(e, i, 0), RwRecord(e, e.rw[i]);
    MergeFresh(a, b);
    KeepNext(e.rw, i, e.root);
    assert Keep(e.ro[..0], e.root) == [] by { KeepNone(e.root); }
    assert e.rw[..i + 1] == e.rw[..i] + [e.rw[i]];
  }

  lemma KeepNone(root: seq<string>)
    ensures Keep([], root) == []
  {
  }

  lemma MergeRo(e: Export, j: nat)
    requires HostsOk(e) && j < |e.ro|
    ensures Merge(Partial(e, |e.rw|, j), RoRecord(e, e.ro[j])) == Partial(e, |e.rw|, j + 1)
  {
    hide Merge, Keep, HostOk, Distinct;
    NotBefore(e.ro, j);
    var a, b := Partial(e, |e.rw|, j), RoRecord(e, e.ro[j]);
    assert e.rw[..|e.rw|] == e.rw;
    MergeFresh(a, b);
    KeepNext(e.ro, j, e.root);
    assert e.ro[..j + 1] == e.ro[..j] + [e.ro[j]];
  }

  // ----- reading the lines of one export

  lemma {:induction false} AddLast(es: seq<Export>, p: Export, x: Export)
    requires Matches(x, p) && forall y | y in es :: !Matches(x, y)
    ensures Add(es + [p], x) == es + [Merge(p, x)]
    decreases |es|
  {
    hide Matches, Merge;
    var all := es + [p];
    if es == [] {
      assert all[1..] == [];
    } else {
      assert es[0] in es && all[0] == es[0] && all[1..] == es[1..] + [p];
      AddLast(es[1..], p, x);
    }
  }

  lemma {:induction false} AddNew(es: seq<Export>, x: Export)
    requires forall y | y in es :: !Matches(x, y)
    ensures Add(es, x) == es + [x]
    decreases |es|
  {
    hide Matches;
    if es != [] {
      assert es[0] in es;
      AddNew(es[1..], x);
    }
  }

  lemma ReadLinesCons(env: Env, es: seq<Export>, line: string, rest: seq<string>, es': seq<Export>)
    requires ReadLine(env, es, line) == Some(es')
    ensures ReadLines(env, es, [line] + rest) == ReadLines(env, es', rest)
  {
    hide ReadLine;
    assert ([line] + rest)[1..] == rest;
  }

  /** No record so far matches the export. */
  predicate Fresh(es: seq<Export>, e: Export) {
    forall y | y in es :: !Matches(e, y)
  }

  lemma FreshRecord(es: seq<Export>, e: Export, x: Export)
    requires Fresh(es, e) && x.path == e.path && x.auth == e.auth && x.options == e.options
    requires x.anonuid == e.anonuid && x.anongid == e.anongid
    ensures forall y | y in es :: !Matches(x, y)
  {
    hide OptionSet;
  }

  lemma {:induction false} ReadRw(env: Env, e: Export, m: Options, es: seq<Export>, i: nat, rest: seq<string>)
    requires Storable(env, e) && Describes(m, e) && Fresh(es, e) && 1 <= i <= |e.rw|
    ensures ReadLines(env, es + [Partial(e, i, 0)], RwLines(e, WithAuth(e, m), e.rw[i..]) + rest) ==
            ReadLines(env, es + [Partial(e, |e.rw|, 0)], rest)
    decreases |e.rw| - i
  {
    hide Fresh, Partial, Merge, ReadLine, ReadLines, RwLine, WithAuth, Describes, OptionSet, Add;
    hide PathOk, HostOk, WordOk, HostsDistinct;
    var c := WithAuth(e, m);
    if i == |e.rw| {
      assert RwLines(e, c, e.rw[i..]) + rest == rest;
    } else {
      var h := e.rw[i];
      var x, p := RwRecord(e, h), Partial(e, i, 0);
      assert h in e.rw + e.ro;
      RwLineRead(env, e, m, h, es + [p]);
      FreshRecord(es, e, x);
      assert Matches(x, p) by { PartialMatches(e, i, 0, x); }
      AddLast(es, p, x);
      MergeRw(e, i);
      var more := RwLines(e, c, e.rw[i + 1..]) + rest;
      assert e.rw[i..][1..] == e.rw[i + 1..];
      assert RwLines(e, c, e.rw[i..]) + rest == [RwLine(e, c, h)] + more;
      ReadLinesCons(env, es + [p], RwLine(e, c, h), more, es + [Partial(e, i + 1, 0)]);
      ReadRw(env, e, m, es, i + 1, rest);
    }
  }

  lemma PartialMatches(e: Export, i: nat, j: nat, x: Export)
    requires i <= |e.rw| && j <= |e.ro|
    requires x.path == e.path && x.auth == e.auth && x.options == e.options
    requires x.anonuid == e.anonuid && x.anongid == e.anongid
    ensures Matches(x, Partial(e, i, j))
  {
  }

  lemma {:induction false} ReadRo(env: Env, e: Export, m: Options, es: seq<Export>, j: nat, rest: seq<string>)
    requires Storable(env, e) && Describes(m, e) && Fresh(es, e) && j <= |e.ro| && 1 <= |e.rw| + j
    ensures ReadLines(env, es + [Partial(e, |e.rw|, j)], RoLines(e, WithAuth(e, m), e.ro[j..]) + rest) ==
            ReadLines(env, es + [Partial(e, |e.rw|, |e.ro|)], rest)
    decreases |e.ro| - j
  {
    hide Fresh, Partial, Merge, ReadLine, ReadLines, RoLine, WithAuth, Describes, OptionSet, Add;
    hide PathOk, HostOk, WordOk, HostsDistinct;
    var c := WithAuth(e, m);
    if j == |e.ro| {
      assert RoLines(e, c, e.ro[j..]) + rest == rest;
    } else {
      var h := e.ro[j];
      var x, p := RoRecord(e, h), Partial(e, |e.rw|, j);
      assert h in e.rw + e.ro;
      RoLineRead(env, e, m, h, es + [p]);
      FreshRecord(es, e, x);
      assert Matches(x, p) by { PartialMatches(e, |e.rw|, j, x); }
      AddLast(es, p, x);
      MergeRo(e, j);
      var more := RoLines(e, c, e.ro[j + 1..]) + rest;
      assert e.ro[j..][1..] == e.ro[j + 1..];
      assert RoLines(e, c, e.ro[j..]) + rest == [RoLine(e, c, h)] + more;
      ReadLinesCons(env, es + [p], RoLine(e, c, h), more, es + [Partial(e, |e.rw|, j + 1)]);
      ReadRo(env, e, m, es, j + 1, rest);
    }
  }

  /** The first line of an export starts its record. */
  lemma ReadFirst(env: Env, e: Export, m: Options, es: seq<Export>)
    requires Storable(env, e) && Describes(m, e) && Fresh(es, e)
    ensures e.rw != [] ==> ReadLine(env, es, RwLine(e, WithAuth(e, m), e.rw[0])) == Some(es + [Partial(e, 1, 0)])
    ensures e.rw == [] && e.ro != [] ==>
              ReadLine(env, es, RoLine(e, WithAuth(e, m), e.ro[0])) == Some(es + [Partial(e, 0, 1)])
  {
    hide Fresh, ReadLine, RwLine, RoLine, WithAuth, Describes, Add, PathOk, HostOk, WordOk, HostsDistinct;
    if e.rw != [] {
      var h := e.rw[0];
      assert h in e.rw + e.ro && e.rw[..1] == [h] && e.ro[..0] == [];
      RwLineRead(env, e, m, h, es);
      FreshRecord(es, e, RwRecord(e, h));
      AddNew(es, RwRecord(e, h));
      assert RwRecord(e, h) == Partial(e, 1, 0);
    } else if e.ro != [] {
      var h := e.ro[0];
      assert h in e.rw + e.ro && e.ro[..1] == [h] && e.rw[..0] == [];
      RoLineRead(env, e, m, h, es);
      FreshRecord(es, e, RoRecord(e, h));
      AddNew(es, RoRecord(e, h));
      assert RoRecord(e, h) == Partial(e, 0, 1);
    }
  }

  /** Reading all lines of an export appends its record. */
  lemma ReadExportLines(env: Env, e: Export, m: Options, es: seq<Export>, rest: seq<string>)
    requires Storable(env, e) && Describes(m, e) && Fresh(es, e)
    ensures var c := WithAuth(e, m);
            ReadLines(env, es, RwLines(e, c, e.rw) + RoLines(e, c, e.ro) + rest) ==
            ReadLines(env, es + [Normal(e)], rest)
  {
    hide Fresh, ReadLine, ReadLines, RwLine, RoLine, WithAuth, Describes, Partial, PathOk, HostOk, WordOk,
         HostsDistinct;
    var c := WithAuth(e, m);
    var ros := RoLines(e, c, e.ro) + rest;
    assert RwLines(e, c, e.rw) + RoLines(e, c, e.ro) + rest == RwLines(e, c, e.rw) + ros;
    ReadFirst(env, e, m, es);
    PartialAll(e);
    if e.rw != [] {
      var more := RwLines(e, c, e.rw[1..]) + ros;
      assert RwLines(e, c, e.rw) + ros == [RwLine(e, c, e.rw[0])] + more;
      ReadLinesCons(env, es, RwLine(e, c, e.rw[0]), more, es + [Partial(e, 1, 0)]);
      ReadRw(env, e, m, es, 1, ros);
      assert e.ro[0..] == e.ro;
      ReadRo(env, e, m, es, 0, rest);
    } else {
      var more := RoLines(e, c, e.ro[1..]) + rest;
      assert RwLines(e, c, e.rw) + ros == [RoLine(e, c, e.ro[0])] + more;
      ReadLinesCons(env, es, RoLine(e, c, e.ro[0]), more, es + [Partial(e, 0, 1)]);
      ReadRo(env, e, m, es, 1, rest);
    }
  }

  lemma PartialAll(e: Export)
    ensures Partial(e, |e.rw|, |e.ro|) == Normal(e)
  {
    assert e.rw[..|e.rw|] == e.rw && e.ro[..|e.ro|] == e.ro;
  }

  // ----- reading all exports

  function Normals(es: seq<Export>): seq<Export> {
    if es == [] then [] else [Normal(es[0])] + Normals(es[1..])
  }

  ghost predicate AllStorable(env: Env, es: seq<Export>) {
    forall e | e in es :: Storable(env, e)
  }

  lemma LinesOf(env: Env, e: Export, m: Options)
    requires Storable(env, e) && Describes(m, e)
    ensures var c := WithAuth(e, m);
            ExportLines(env, e) == Some(RwLines(e, c, e.rw) + RoLines(e, c, e.ro))
  {
    hide RwLines, RoLines, PrintOption, PathOk, HostsOk, WordOk;
    if m != map[] {
      OptionsReadBack(m);
    }
  }

  lemma {:induction false} ReadAll(env: Env, es: seq<Export>, done: seq<Export>)
    requires AllStorable(env, es) && Apart(es) && forall e | e in es :: Fresh(done, e)
    ensures AllLines(env, es).Some?
    ensures ReadLines(env, done, AllLines(env, es).value) == Some(done + Normals(es))
    decreases |es|
  {
    hide Fresh, Matches, ReadLines, ExportLines, Storable, Describes, Normal;
    if es == [] {
      assert done + Normals(es) == done;
      assert ReadLines(env, done, []) == Some(done) by { ReadNone(env, done); }
    } else {
      var e := es[0];
      assert e in es;
      StorableDescribed(env, e);
      var m :| Describes(m, e);
      LinesOf(env, e, m);
      FreshAfter(es, done);
      ReadAll(env, es[1..], done + [Normal(e)]);
      var rest := AllLines(env, es[1..]).value;
      ReadExportLines(env, e, m, done, rest);
      assert done + Normals(es) == done + [Normal(e)] + Normals(es[1..]);
    }
  }

  lemma ReadNone(env: Env, es: seq<Export>)
    ensures ReadLines(env, es, []) == Some(es)
  {
  }

  lemma StorableDescribed(env: Env, e: Export)
    requires Storable(env, e)
    ensures exists m :: Describes(m, e)
  {
  }

  lemma FreshAfter(es: seq<Export>, done: seq<Export>)
    requires es != [] && Apart(es) && forall e | e in es :: Fresh(done, e)
    ensures Apart(es[1..]) && forall e | e in es[1..] :: Fresh(done + [Normal(es[0])], e)
  {
    hide OptionSet, Keep;
    forall k | 1 <= k < |es| ensures Fresh(done + [Normal(es[0])], es[k]) {
      assert es[k] in es && !Matches(es[0], es[k]);
    }
  }

  // ----- lines of a text

  /** A line: its only line break is at its end. */
  predicate OneLine(l: string) {
    l != [] && l[|l| - 1] == '\n' && Without(l[..|l| - 1], '\n') && Without(l[..|l| - 1], '\r')
  }

  lemma {:induction false} LinesFirst(l: string, rest: string)
    requires OneLine(l)
    ensures Lines(l + rest) == [l] + Lines(rest)
    decreases |l|
  {
    var t := l + rest;
    if |l| == 1 {
      assert t[1..] == rest && l == ['\n'];
    } else {
      var b := l[..|l| - 1];
      assert l[0] == b[0] && b[0] in b;
      assert l[1..][..|l| - 2] == b[1..];
      assert t[1..] == l[1..] + rest;
      LinesFirst(l[1..], rest);
      assert [l[0]] + l[1..] == l;
    }
  }

  lemma {:induction false} LinesConcat(ls: seq<string>)
    requires forall l | l in ls :: OneLine(l)
    ensures Lines(Concat(ls)) == ls
    decreases |ls|
  {
    hide OneLine, Lines;
    if ls == [] {
      assert Lines([]) == [] by { LinesEmpty(); }
    } else {
      assert ls[0] in ls;
      LinesFirst(ls[0], Concat(ls[1..]));
      LinesConcat(ls[1..]);
    }
  }

  lemma LinesEmpty()
    ensures Lines([]) == []
  {
  }

  lemma SafeOneLine(a: string, b: string)
    requires Without(a, '\n') && Without(a, '\r') && Safe(b)
    ensures OneLine(a + " " + b + "\n")
  {
    var l := a + " " + b + "\n";
    assert l[..|l| - 1] == a + " " + b;
  }

  lemma ExportOneLine(env: Env, e: Export, m: Options, h: string)
    requires Storable(env, e) && Describes(m, e) && HostOk(h)
    ensures OneLine(RwLine(e, WithAuth(e, m), h))
    ensures e.ro != [] ==> OneLine(RoLine(e, WithAuth(e, m), h))
  {
    hide Describes, HostOk, HostsOk, WordOk, HostOpts, Field, OneLine, WithAuth, ParseExport;
    FieldParsed(env, e, m, h, "rw", "ro");
    FieldParsed(env, e, m, h, "ro", "rw");
    var c := WithAuth(e, m);
    var path := if ' ' in e.path then "\"" + e.path + "\"" else e.path;
    SafeOneLine(path, Field(h, HostOpts(e, c, h, "rw", "ro")));
    if e.ro != [] {
      SafeOneLine(e.path, Field(h, HostOpts(e, c, h, "ro", "rw")));
    }
  }

  lemma {:induction false} RwOneLine(env: Env, e: Export, m: Options, hosts: seq<string>)
    requires Storable(env, e) && Describes(m, e) && forall h | h in hosts :: HostOk(h)
    ensures forall l | l in RwLines(e, WithAuth(e, m), hosts) :: OneLine(l)
    ensures e.ro != [] ==> forall l | l in RoLines(e, WithAuth(e, m), hosts) :: OneLine(l)
    decreases |hosts|
  {
    hide Describes, Storable, HostOk, OneLine, WithAuth, RwLine, RoLine;
    if hosts != [] {
      assert hosts[0] in hosts;
      ExportOneLine(env, e, m, hosts[0]);
      RwOneLine(env, e, m, hosts[1..]);
    }
  }

  lemma ExportOneLines(env: Env, e: Export, m: Options)
    requires Storable(env, e) && Describes(m, e)
    ensures ExportLines(env, e).Some? && forall l | l in ExportLines(env, e).value :: OneLine(l)
  {
    hide Describes, ExportLines, HostOk, OneLine, WithAuth, PathOk, WordOk, HostsDistinct;
    LinesOf(env, e, m);
    RwOneLine(env, e, m, e.rw);
    RwOneLine(env, e, m, e.ro);
  }

  lemma {:induction false} AllOneLine(env: Env, es: seq<Export>)
    requires AllStorable(env, es) && AllLines(env, es).Some?
    ensures forall l | l in AllLines(env, es).value :: OneLine(l)
    decreases |es|
  {
    hide Storable, ExportLines, OneLine, Describes;
    if es != [] {
      assert es[0] in es;
      StorableDescribed(env, es[0]);
      var m :| Describes(m, es[0]);
      ExportOneLines(env, es[0], m);
      AllOneLine(env, es[1..]);
    }
  }

  // ----- the order of root hosts

  lemma {:induction false} DistinctMultiset(s: seq<string>)
    requires Distinct(s)
    ensures forall x :: multiset(s)[x] == if x in s then 1 else 0
  {
    if s != [] {
      var t := s[1..];
      DistinctMultiset(t);
      assert s == [s[0]] + t;
      assert s[0] !in t;
    }
  }

  lemma {:induction false} KeepDistinct(hosts: seq<string>, root: seq<string>)
    requires Distinct(hosts)
    ensures Distinct(Keep(hosts, root))
  {
    if hosts != [] {
      var n := |hosts| - 1;
      KeepDistinct(hosts[..n], root);
      assert hosts[n] !in hosts[..n];
    }
  }

  lemma DistinctConcat(a: seq<string>, b: seq<string>)
    requires Distinct(a) && Distinct(b) && forall x | x in a :: x !in b
    ensures Distinct(a + b)
  {
    forall i, j | 0 <= i < j < |a + b| ensures (a + b)[i] != (a + b)[j] {
      if i < |a| <= j {
        assert (a + b)[i] in a && (a + b)[j] in b;
      }
    }
  }

  /** Normalizing permutes the root hosts and nothing else. */
  lemma NormalPermutes(e: Export)
    requires HostsOk(e)
    ensures multiset(Normal(e).root) == multiset(e.root)
    ensures Normal(e) == e.(root := Normal(e).root)
  {
    hide HostOk, Keep;
    var r := Normal(e).root;
    KeepDistinct(e.rw, e.root);
    KeepDistinct(e.ro, e.root);
    DistinctConcat(Keep(e.rw, e.root), Keep(e.ro, e.root));
    DistinctMultiset(r);
    DistinctMultiset(e.root);
    assert forall x :: x in r <==> x in e.root;
  }

  // ----- the theorem

  lemma HeaderRead(env: Env)
    ensures OneLine(HEADER) && ReadLine(env, [], HEADER) == Some([])
  {
    var (a, b, c) := ("# NFS exports managed ", "by libstoragemgmt.", " do not edit.");
    assert a[0] == '#';
    Printable(a);
    Printable(b);
    Printable(c);
    assert HEADER[..|HEADER| - 1] == a + b + c;
  }

  lemma Printable(s: string)
    requires forall i | 0 <= i < |s| :: ' ' <= s[i]
    ensures Without(s, '\n') && Without(s, '\r')
  {
  }

  /** Writing exports that do not match one another and reading the file gives them back,
      in order and with all their fields, up to the order of root hosts. */
  lemma WrittenExportsReadBack(env: Env, es: seq<Export>)
    requires AllStorable(env, es) && Apart(es)
    ensures WriteExports(env, es).Some?
    ensures ReadExports(env, WriteExports(env, es).value) == Some(Normals(es))
    ensures |Normals(es)| == |es|
    ensures forall k | 0 <= k < |es| ::
              Normals(es)[k] == es[k].(root := Normals(es)[k].root) &&
              multiset(Normals(es)[k].root) == multiset(es[k].root)
  {
    hide Storable, Apart, AllLines, ReadLines, ReadLine, OneLine, Lines, HEADER;
    ReadAll(env, es, []);
    var lines := AllLines(env, es).value;
    AllOneLine(env, es);
    HeaderRead(env);
    LinesConcat([HEADER] + lines);
    assert Concat([HEADER] + lines) == HEADER + Concat(lines);
    ReadLinesCons(env, [], HEADER, lines, []);
    assert [] + Normals(es) == Normals(es);
    NormalsPermute(env, es);
  }

  lemma {:induction false} NormalsPermute(env: Env, es: seq<Export>)
    requires AllStorable(env, es)
    ensures |Normals(es)| == |es|
    ensures forall k | 0 <= k < |es| ::
              Normals(es)[k] == es[k].(root := Normals(es)[k].root) &&
              multiset(Normals(es)[k].root) == multiset(es[k].root)
    decreases |es|
  {
    if es != [] {
      assert Storable(env, es[0]);
      NormalPermutes(es[0]);
      NormalsPermute(env, es[1..]);
    }
  }
}
