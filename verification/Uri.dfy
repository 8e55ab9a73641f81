/** The URI splitter of c_binding/uri_parser.hpp (section 3 of RFC 3986). */
module Uri {
  import opened Wrappers
  import opened Texts
  import N = Numbers

  // ----- std::string::find and rfind

  function Find(s: string, c: char): (r: int)
    ensures -1 <= r < |s| && (r >= 0 ==> s[r] == c)
    ensures forall k | 0 <= k < if r == -1 then |s| else r :: s[k] != c
  {
    if s == [] then -1
    else if s[0] == c then 0
    else
      var r := Find(s[1..], c);
      if r == -1 then -1 else r + 1
  }

  function RFind(s: string, c: char): (r: int)
    ensures -1 <= r < |s| && (r >= 0 ==> s[r] == c)
    ensures forall k | r < k < |s| :: s[k] != c
  {
    if s == [] then -1
    else if s[|s| - 1] == c then |s| - 1
    else RFind(s[..|s| - 1], c)
  }

  /** Where "://" starts first, -1 when it is not there. */
  function FindScheme(s: string): (r: int)
    ensures -1 <= r && r + 3 <= |s| + 2
    ensures r >= 0 ==> r + 3 <= |s| && s[r..r + 3] == "://"
  {
    if |s| < 3 then -1
    else if s[..3] == "://" then 0
    else
      var r := FindScheme(s[1..]);
      if r == -1 then -1 else r + 1
  }

  // ----- cutting off one part at a time

  /** At the last `c`: what is before it and, if it is there, what is after it. */
  function CutLast(s: string, c: char): (string, Option<string>) {
    var i := RFind(s, c);
    if i == -1 then (s, None) else (s[..i], Some(s[i + 1..]))
  }

  /** At the first `c`: if it is there, what is before it, and what is after it. */
  function CutFirst(s: string, c: char): (Option<string>, string) {
    var i := Find(s, c);
    if i == -1 then (None, s) else (Some(s[..i]), s[i + 1..])
  }

  /** At the first slash, which belongs to the path. */
  function CutPath(s: string): (string, string) {
    var i := Find(s, '/');
    if i == -1 then (s, "") else (s[..i], s[i..])
  }

  /** Text that `port` accepts: one or more digits. */
  predicate PortText(s: string) {
    s != [] && N.AllDigits(s)
  }

  /** At the last colon, provided that a port follows it. */
  function CutPort(s: string): (string, Option<string>) {
    var (before, after) := CutLast(s, ':');
    if after.Some? && PortText(after.value) then (before, after) else (s, None)
  }

  // ----- the parts of a URI

  datatype Parts = Parts(scheme: string, user: Option<string>, host: string, port: Option<string>,
                         path: string, query: Option<string>, fragment: Option<string>)

  predicate SchemeChar(c: char) {
    'a' <= c <= 'z' || 'A' <= c <= 'Z' || '0' <= c <= '9' || c == '+' || c == '.' || c == '-'
  }

  predicate VerifyScheme(s: string) {
    s != [] && forall i | 0 <= i < |s| :: SchemeChar(s[i])
  }

  /** The characters of a scheme (section 3.1 of RFC 3986). */
  lemma SchemeChars(c: char)
    ensures SchemeChar(c) <==>
            || c in "abcdefghijklmnopqrstuvwxyz"
            || c in "ABCDEFGHIJKLMNOPQRSTUVWXYZ"
            || c in "0123456789+-."
  {
  }

  /** The cuts of `parse`, None for an invalid URI. */
  function SplitUri(uri: string): Option<Parts> {
    var i := FindScheme(uri);
    if i == -1 || !VerifyScheme(uri[..i]) then None
    else
      var (rest, fragment) := CutLast(uri[i + 3..], '#');
      var (rest, query) := CutLast(rest, '?');
      var (rest, path) := CutPath(rest);
      var (user, rest) := CutFirst(rest, '@');
      var (host, port) := CutPort(rest);
      Some(Parts(uri[..i], user, host, port, path, query, fragment))
  }

  function Suffix(c: char, s: Option<string>): string {
    if s.None? then "" else [c] + s.value
  }

  function Prefix(s: Option<string>, c: char): string {
    if s.None? then "" else s.value + [c]
  }

  function HostPort(p: Parts): string {
    p.host + Suffix(':', p.port)
  }

  function Authority(p: Parts): string {
    Prefix(p.user, '@') + HostPort(p)
  }

  function Hierarchy(p: Parts): string {
    Authority(p) + p.path
  }

  /** The text of the parts. */
  function Print(p: Parts): string {
    p.scheme + "://" + (Hierarchy(p) + Suffix('?', p.query) + Suffix('#', p.fragment))
  }

  /** No colon of the host has a port behind it: what follows its last colon is empty or
      not all digits. */
  predicate NoPort(host: string) {
    forall i | 0 <= i < |host| && host[i] == ':' :: !PortText(host[i + 1..])
  }

  /** Parts that keep to their delimiters: each part is free of the delimiter that would
      end it, and where a part is absent its delimiter is absent from what precedes it. */
  predicate Delimited(p: Parts) {
    && VerifyScheme(p.scheme)
    && (if p.fragment.Some? then Without(p.fragment.value, '#')
        else Without(Hierarchy(p) + Suffix('?', p.query), '#'))
    && (if p.query.Some? then Without(p.query.value, '?') else Without(Hierarchy(p), '?'))
    && (p.path == "" || p.path[0] == '/') && Without(Authority(p), '/')
    && (if p.user.Some? then Without(p.user.value, '@') else Without(HostPort(p), '@'))
    && (if p.port.Some? then PortText(p.port.value) else NoPort(p.host))
  }

  // ----- each cut and its inverse

  lemma CutLastJoins(s: string, c: char)
    ensures var (a, b) := CutLast(s, c);
            && a + Suffix(c, b) == s
            && (if b.Some? then Without(b.value, c) else Without(a, c))
  {
    var i := RFind(s, c);
    if i >= 0 {
      assert s == s[..i] + ([s[i]] + s[i + 1..]);
    }
  }

  lemma {:induction false} LastIs(a: string, c: char, b: string)
    requires Without(b, c)
    ensures RFind(a + ([c] + b), c) == |a|
    decreases |b|
  {
    var s := a + ([c] + b);
    if b != [] {
      var n := |b| - 1;
      assert b[n] in b && s[|s| - 1] == b[n];
      assert s[..|s| - 1] == a + ([c] + b[..n]);
      LastIs(a, c, b[..n]);
    }
  }

  lemma CutLastInverts(a: string, c: char, b: Option<string>)
    requires if b.Some? then Without(b.value, c) else Without(a, c)
    ensures CutLast(a + Suffix(c, b), c) == (a, b)
  {
    hide RFind;
    if b.Some? {
      LastIs(a, c, b.value);
      AroundOne(a, c, b.value);
    } else {
      assert a + Suffix(c, b) == a;
      var r := RFind(a, c);
      assert r == -1;
    }
  }

  lemma AroundOne(a: string, c: char, b: string)
    ensures (a + ([c] + b))[..|a|] == a && (a + ([c] + b))[|a| + 1..] == b
  {
  }

  lemma CutFirstJoins(s: string, c: char)
    ensures var (a, b) := CutFirst(s, c);
            && Prefix(a, c) + b == s
            && (if a.Some? then Without(a.value, c) else Without(b, c))
  {
    var i := Find(s, c);
    if i >= 0 {
      assert s == s[..i] + [s[i]] + s[i + 1..];
    }
  }

  lemma {:induction false} FirstIs(a: string, c: char, b: string)
    requires Without(a, c)
    ensures Find(a + [c] + b, c) == |a|
    decreases |a|
  {
    var s := a + [c] + b;
    if a != [] {
      assert a[0] in a && s[0] == a[0];
      assert s[1..] == a[1..] + [c] + b;
      FirstIs(a[1..], c, b);
    }
  }

  lemma CutFirstInverts(a: Option<string>, c: char, b: string)
    requires if a.Some? then Without(a.value, c) else Without(b, c)
    ensures CutFirst(Prefix(a, c) + b, c) == (a, b)
  {
    hide Find;
    var s := Prefix(a, c) + b;
    if a.Some? {
      FirstIs(a.value, c, b);
      assert s[..|a.value|] == a.value && s[|a.value| + 1..] == b;
    } else {
      assert s == b;
      var r := Find(b, c);
      assert r == -1;
    }
  }

  lemma CutPathJoins(s: string)
    ensures var (a, b) := CutPath(s); a + b == s && (b == "" || b[0] == '/') && Without(a, '/')
  {
  }

  lemma CutPathInverts(a: string, b: string)
    requires (b == "" || b[0] == '/') && Without(a, '/')
    ensures CutPath(a + b) == (a, b)
  {
    hide Find;
    if b == "" {
      assert a + b == a;
      var r := Find(a, '/');
      assert r == -1;
    } else {
      FirstIs(a, '/', b[1..]);
      assert a + ['/'] + b[1..] == a + b;
    }
  }

  /** Only the text after the last colon can be a port. */
  lemma NoPortIff(s: string)
    ensures CutPort(s).1 == None <==> NoPort(s)
  {
    var r := RFind(s, ':');
    forall i | 0 <= i < |s| && s[i] == ':' && i != r ensures !PortText(s[i + 1..]) {
      assert s[i + 1..][r - i - 1] == ':';
    }
  }

  lemma CutPortJoins(s: string)
    ensures var (a, b) := CutPort(s);
            a + Suffix(':', b) == s && (if b.Some? then PortText(b.value) else NoPort(a))
  {
    hide CutLast, NoPort;
    CutLastJoins(s, ':');
    NoPortIff(s);
  }

  lemma CutPortInverts(a: string, b: Option<string>)
    requires if b.Some? then PortText(b.value) else NoPort(a)
    ensures CutPort(a + Suffix(':', b)) == (a, b)
  {
    hide CutLast, NoPort;
    if b.Some? {
      assert Without(b.value, ':');
      CutLastInverts(a, ':', b);
    } else {
      assert a + Suffix(':', b) == a;
      NoPortIff(a);
    }
  }

  lemma {:induction false} SchemeIs(scheme: string, rest: string)
    requires forall i | 0 <= i < |scheme| :: SchemeChar(scheme[i])
    ensures FindScheme(scheme + "://" + rest) == |scheme|
    decreases |scheme|
  {
    var s := scheme + "://" + rest;
    if scheme == [] {
      assert s[..3] == "://";
    } else {
      assert s[..3][0] == scheme[0] != ':';
      assert s[1..] == scheme[1..] + "://" + rest;
      SchemeIs(scheme[1..], rest);
    }
  }

  // ----- the theorems

  /** Splitting loses nothing: an accepted URI is the text of its parts, and the parts keep
      to their delimiters. */
  lemma SplitIsLossless(uri: string)
    ensures var r := SplitUri(uri); r.Some? ==> Print(r.value) == uri && Delimited(r.value)
  {
    hide CutLast, CutFirst, CutPath, CutPort, FindScheme, VerifyScheme, NoPort;
    var i := FindScheme(uri);
    if i != -1 && VerifyScheme(uri[..i]) {
      var all := uri[i + 3..];
      assert uri == uri[..i] + "://" + all;
      var (a, fragment) := CutLast(all, '#');
      CutLastJoins(all, '#');
      var (b, query) := CutLast(a, '?');
      CutLastJoins(a, '?');
      var (c, path) := CutPath(b);
      CutPathJoins(b);
      var (user, d) := CutFirst(c, '@');
      CutFirstJoins(c, '@');
      CutPortJoins(d);
      var p := SplitUri(uri).value;
      assert HostPort(p) == d && Authority(p) == c && Hierarchy(p) == b;
    }
  }

  /** Every URI made of parts that keep to their delimiters is split into those parts. */
  lemma SplitInvertsPrint(p: Parts)
    requires Delimited(p)
    ensures SplitUri(Print(p)) == Some(p)
  {
    hide CutLast, CutFirst, CutPath, CutPort, FindScheme, NoPort;
    var a := Hierarchy(p) + Suffix('?', p.query);
    var all := a + Suffix('#', p.fragment);
    var uri := p.scheme + "://" + all;
    SchemeIs(p.scheme, all);
    assert uri[..|p.scheme|] == p.scheme && uri[|p.scheme| + 3..] == all;
    CutLastInverts(a, '#', p.fragment);
    CutLastInverts(Hierarchy(p), '?', p.query);
    CutPathInverts(Authority(p), p.path);
    CutFirstInverts(p.user, '@', HostPort(p));
    CutPortInverts(p.host, p.port);
  }

  /** Splitting and printing are inverse on exactly these parts. */
  lemma SplitPrintIff(p: Parts)
    ensures SplitUri(Print(p)) == Some(p) <==> Delimited(p)
  {
    hide *;
    SplitIsLossless(Print(p));
    if Delimited(p) {
      SplitInvertsPrint(p);
    }
  }

  /** A bracketed host ends in a bracket, so that the last colon inside an IPv6 address is
      never taken for the start of a port. */
  lemma BracketedHost(host: string)
    requires host != [] && host[|host| - 1] == ']'
    ensures NoPort(host)
  {
    forall i | 0 <= i < |host| && host[i] == ':' ensures !PortText(host[i + 1..]) {
      var after := host[i + 1..];
      assert after != [] ==> after[|after| - 1] == ']';
    }
  }

  // ----- query strings

  /** `pair`: at the first equal sign. */
  function Pair(s: string): (string, string) {
    var i := Find(s, '=');
    if i == -1 then (s, "") else (s[..i], s[i + 1..])
  }

  /** Later pieces win. */
  function QueryMap(pieces: seq<string>, acc: map<string, string>): map<string, string>
    decreases |pieces|
  {
    if pieces == [] then acc
    else QueryMap(pieces[1..], acc[Pair(pieces[0]).0 := Pair(pieces[0]).1])
  }

  function Query(qs: string): map<string, string> {
    if qs == "" then map[] else QueryMap(Split(qs, '&'), map[])
  }

  // ----- what a query string says

  function Or(s: Option<string>): string {
    if s.None? then "" else s.value
  }

  /** `key=value`, or a key alone. */
  datatype Param = Param(key: string, value: Option<string>)

  function ParamText(p: Param): string {
    p.key + Suffix('=', p.value)
  }

  /** Free of the delimiters that would end it. */
  predicate ParamOk(p: Param) {
    && Without(p.key, '=') && Without(p.key, '&')
    && (p.value.Some? ==> Without(p.value.value, '&'))
  }

  function ParamTexts(ps: seq<Param>): (r: seq<string>)
    ensures |r| == |ps|
  {
    if ps == [] then [] else [ParamText(ps[0])] + ParamTexts(ps[1..])
  }

  lemma PairRead(p: Param)
    requires Without(p.key, '=')
    ensures Pair(ParamText(p)) == (p.key, Or(p.value))
  {
    hide Find;
    if p.value.Some? {
      FirstIs(p.key, '=', p.value.value);
      Associative(p.key, ['='], p.value.value);
      AroundOne(p.key, '=', p.value.value);
    } else {
      assert ParamText(p) == p.key;
      var r := Find(p.key, '=');
      assert r == -1;
    }
  }

  /** The value of the last parameter with a key. */
  function LastParam(ps: seq<Param>, key: string): Option<string> {
    if ps == [] then None
    else
      match LastParam(ps[1..], key)
      case Some(v) => Some(v)
      case None => if ps[0].key == key then Some(Or(ps[0].value)) else None
  }

  lemma {:induction false} QueryMapLast(ps: seq<Param>, acc: map<string, string>, key: string)
    requires forall p | p in ps :: ParamOk(p)
    ensures var m := QueryMap(ParamTexts(ps), acc);
            match LastParam(ps, key)
            case Some(v) => key in m && m[key] == v
            case None => (key in m <==> key in acc) && (key in acc ==> m[key] == acc[key])
    decreases |ps|
  {
    hide Pair, ParamText;
    if ps != [] {
      assert ps[0] in ps;
      PairRead(ps[0]);
      var texts := ParamTexts(ps);
      assert texts[0] == ParamText(ps[0]) && texts[1..] == ParamTexts(ps[1..]);
      QueryMapLast(ps[1..], acc[ps[0].key := Or(ps[0].value)], key);
    }
  }

  lemma {:induction false} ParamTextsOk(ps: seq<Param>)
    requires forall p | p in ps :: ParamOk(p)
    ensures forall t | t in ParamTexts(ps) :: Without(t, '&')
  {
    if ps != [] {
      assert ps[0] in ps && Without(ParamText(ps[0]), '&');
      ParamTextsOk(ps[1..]);
    }
  }

  /** A query printed from any list of parameters is read as the map in which the last
      value of each key wins; an empty text has no parameter. */
  lemma QueryReadBack(ps: seq<Param>, key: string)
    requires (forall p | p in ps :: ParamOk(p)) && Join(ParamTexts(ps), '&') != ""
    ensures var m := Query(Join(ParamTexts(ps), '&'));
            if key in m then LastParam(ps, key) == Some(m[key]) else LastParam(ps, key) == None
  {
    hide ParamOk, QueryMap, LastParam, Split;
    assert ps != [];
    ParamTextsOk(ps);
    SplitJoin(ParamTexts(ps), '&');
    QueryMapLast(ps, map[], key);
  }

  /** `parse_qs`: the loop that shortens the text equals a fold over the pieces. */
  method ParseQs(text: string) returns (rc: map<string, string>)
    ensures rc == Query(text)
  {
    hide Pair;
    rc := map[];
    if text == "" {
      return;
    }
    var qs := text;
    var more := true;
    while more
      invariant more ==> QueryMap(Split(qs, '&'), rc) == Query(text)
      invariant !more ==> rc == Query(text)
      decreases more, |qs|
    {
      var amp := Find(qs, '&');
      if amp == -1 {
        SplitWhole(qs, '&');
        rc := rc[Pair(qs).0 := Pair(qs).1];
        more := false;
      } else {
        var piece := qs[..amp];
        assert qs == piece + ['&'] + qs[amp + 1..];
        SplitFirst(piece, '&', qs[amp + 1..]);
        rc := rc[Pair(piece).0 := Pair(piece).1];
        qs := qs[amp + 1..];
      }
    }
  }

  // ----- parse

  datatype Uri = Uri(scheme: string, username: string, host: string, port: int, path: string,
                     query: map<string, string>, fragment: string)

  /** How `parse` ends; a port above the range of `long` makes std::stol throw. */
  datatype Outcome = Valid(uri: Uri) | Invalid | OutOfRange

  const LONG_MAX := 0x7fff_ffff_ffff_ffff

  /** What the parts mean. */
  function Meaning(p: Parts): Outcome
    requires p.port.Some? ==> PortText(p.port.value)
  {
    if p.port.Some? && N.Value(p.port.value) > LONG_MAX then OutOfRange
    else
      Valid(Uri(p.scheme, Or(p.user), p.host, if p.port.Some? then N.Value(p.port.value) else -1,
                p.path, Query(Or(p.query)), Or(p.fragment)))
  }

  function ParseUri(uri: string): Outcome {
    var r := SplitUri(uri);
    if r.None? then Invalid
    else
      SplitIsLossless(uri);
      Meaning(r.value)
  }

  /** Parsing the text of parts in order gives them back field by field: absent ones are
      empty, an absent port is -1 and one above the range of `long` makes the parser throw. */
  lemma ParsePrinted(p: Parts)
    requires Delimited(p)
    ensures var r := ParseUri(Print(p));
            if p.port.Some? && N.Value(p.port.value) > LONG_MAX then r == OutOfRange
            else
              && r.Valid? && r.uri.scheme == p.scheme && r.uri.host == p.host && r.uri.path == p.path
              && r.uri.username == (if p.user.Some? then p.user.value else "")
              && r.uri.port == (if p.port.Some? then N.Value(p.port.value) else -1)
              && r.uri.query == (if p.query.Some? then Query(p.query.value) else map[])
              && r.uri.fragment == (if p.fragment.Some? then p.fragment.value else "")
  {
    hide SplitUri, Print;
    SplitInvertsPrint(p);
    EmptyQuery();
  }

  /** The parser throws on exactly the URIs whose port is above the range of `long`. */
  lemma OutOfRangeIff(uri: string)
    ensures ParseUri(uri) == OutOfRange <==>
            exists p :: Delimited(p) && Print(p) == uri && p.port.Some? && N.Value(p.port.value) > LONG_MAX
  {
    hide SplitUri, Print;
    SplitIsLossless(uri);
    if p :| Delimited(p) && Print(p) == uri && p.port.Some? && N.Value(p.port.value) > LONG_MAX {
      SplitInvertsPrint(p);
    }
  }

  /** The same for a printed number as port of any URI. */
  lemma PortRange(p: Parts, n: nat)
    requires Delimited(p) && p.port == Some(N.Decimal(n))
    ensures ParseUri(Print(p)) == OutOfRange <==> n > LONG_MAX
  {
    hide Delimited, Print, ParseUri;
    ParsePrinted(p);
    N.ValueOfDecimal(n);
  }

  /** One such URI: the smallest port that makes the parser throw. */
  lemma PortThrows()
    ensures ParseUri("a://b:" + N.Decimal(LONG_MAX + 1)) == OutOfRange
  {
    hide ParseUri, N.Decimal;
    var p := Parts("a", None, "b", Some(N.Decimal(LONG_MAX + 1)), "", None, None);
    assert Print(p) == "a://b:" + p.port.value;
    assert Without(p.port.value, '#') && Without(p.port.value, '?');
    assert Without(p.port.value, '/') && Without(p.port.value, '@');
    PortRange(p, LONG_MAX + 1);
  }

  /** The part of `parse` that takes the fragment off `remainder`. */
  method TakeFragment(u: Uri, text: string) returns (r: Uri, remainder: string)
    requires u.fragment == ""
    ensures var (rest, fragment) := CutLast(text, '#');
            remainder == rest && r == u.(fragment := Or(fragment))
  {
    hide RFind;
    r, remainder := u, text;
    var frag := RFind(remainder, '#');
    if frag != -1 {
      r := r.(fragment := remainder[frag + 1..]);
      remainder := remainder[..frag];
    }
  }

  /** The part of `parse` that takes the query off `remainder`. */
  method TakeQuery(u: Uri, text: string) returns (r: Uri, remainder: string)
    requires u.query == map[]
    ensures var (rest, query) := CutLast(text, '?');
            remainder == rest && r == u.(query := Query(Or(query)))
  {
    hide RFind, Query;
    EmptyQuery();
    r, remainder := u, text;
    var qs := RFind(remainder, '?');
    if qs != -1 {
      var q := ParseQs(remainder[qs + 1..]);
      r := r.(query := q);
      remainder := remainder[..qs];
    }
  }

  /** The part of `parse` that takes the path off `remainder`. */
  method TakePath(u: Uri, text: string) returns (r: Uri, remainder: string)
    requires u.path == ""
    ensures var (rest, path) := CutPath(text); remainder == rest && r == u.(path := path)
  {
    hide Find;
    r, remainder := u, text;
    var pathStart := Find(remainder, '/');
    if pathStart != -1 {
      r := r.(path := remainder[pathStart..]);
      remainder := remainder[..pathStart];
    }
  }

  /** The part of `parse` that takes the user off `remainder`, then the port. */
  method TakeAuthority(u: Uri, text: string) returns (r: Outcome)
    requires u.username == "" && u.port == -1
    ensures var (user, rest) := CutFirst(text, '@');
            var (host, port) := CutPort(rest);
            && (port.Some? ==> PortText(port.value))
            && r == if port.Some? && N.Value(port.value) > LONG_MAX then OutOfRange
                    else Valid(u.(username := Or(user), host := host,
                                  port := if port.Some? then N.Value(port.value) else -1))
  {
    hide Find, RFind, N.Value;
    var v, remainder := u, text;
    var username := Find(remainder, '@');
    if username != -1 {
      v := v.(username := remainder[..username]);
      remainder := remainder[username + 1..];
    }
    var portDel := RFind(remainder, ':');
    if portDel != -1 && PortText(remainder[portDel + 1..]) {
      var port := N.Value(remainder[portDel + 1..]);
      if port > LONG_MAX {
        return OutOfRange;
      }
      v := v.(port := port);
      remainder := remainder[..portDel];
    }
    return Valid(v.(host := remainder));
  }

  /** `parse`, which shortens `remainder` cut by cut. */
  method Parse(uri: string) returns (r: Outcome)
    ensures r == ParseUri(uri)
  {
    hide CutLast, CutFirst, CutPath, CutPort, FindScheme, VerifyScheme, Query, Delimited, Print, N.Value;
    var req := FindScheme(uri);
    if uri == "" || req == -1 || !VerifyScheme(uri[..req]) {
      assert uri == "" ==> req == -1;
      return Invalid;
    }
    var u, remainder := TakeFragment(Uri(uri[..req], "", "", -1, "", map[], ""), uri[req + 3..]);
    u, remainder := TakeQuery(u, remainder);
    u, remainder := TakePath(u, remainder);
    r := TakeAuthority(u, remainder);
  }

  lemma EmptyQuery()
    ensures Query("") == map[]
  {
  }
}
