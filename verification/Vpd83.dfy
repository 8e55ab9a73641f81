/** The device identification page of c_binding/libsg.c: a counting pass and a copying pass
    over a list of designation descriptors (Table 590 of SPC-5). */
module Vpd83 {

  type Byte = b: int | 0 <= b < 256

  const MAX_LEN := 0xffff
  const HEADER := 4
  const PAGE_CODE: Byte := 0x83

  /** A descriptor: its four header bytes, the last one the designator's length, and the
      designator. */
  datatype Descriptor = Descriptor(header: seq<Byte>, designator: seq<Byte>)

  predicate Valid(d: Descriptor) {
    |d.header| == HEADER && |d.designator| == d.header[3]
  }

  /** How parsing ends; `Overrun` means that the code copies from beyond its buffer. */
  datatype Result = Ok(dps: seq<Descriptor>) | NoSupport | LibBug | Overrun

  /** The 16-bit length of the whole page. */
  function Length(data: seq<Byte>): nat
    requires |data| >= HEADER
  {
    (data[2] * 256 + data[3] + HEADER) % 0x1_0000
  }

  /** Where the descriptor at `p` ends. */
  function Next(data: seq<Byte>, p: nat): nat
    requires p + HEADER <= |data|
  {
    p + HEADER + data[p + 3]
  }

  /** The descriptor at an offset; its designator has to lie in the buffer. */
  predicate Copyable(data: seq<Byte>, p: nat) {
    p + HEADER <= |data| && Next(data, p) <= |data|
  }

  function At(data: seq<Byte>, p: nat): Descriptor
    requires Copyable(data, p)
  {
    Descriptor(data[p..p + HEADER], data[p + HEADER..Next(data, p)])
  }

  /** The walk over the page, whose last byte is at `end`: the descriptors, or an error when
      a descriptor's header is not followed by at least one byte of the page, or the case
      that a designator runs past the buffer. */
  datatype Walked = Walked(dps: seq<Descriptor>) | Partial | Outside

  function Walk(data: seq<Byte>, p: nat, end: int): Walked
    requires end < |data|
    decreases end - p
  {
    if p > end then Walked([])
    else if p + HEADER > end then Partial
    else
      var rest := Walk(data, Next(data, p), end);
      if rest.Partial? then Partial
      else if rest.Outside? || !Copyable(data, p) then Outside
      else Walked([At(data, p)] + rest.dps)
  }

  /** `_sg_parse_vpd_83` as one walk. */
  function Parse(data: seq<Byte>): Result
    requires |data| == MAX_LEN
  {
    if data[1] != PAGE_CODE then NoSupport
    else
      match Walk(data, HEADER, Length(data) - 1)
      case Partial => LibBug
      case Outside => Overrun
      case Walked(dps) => Ok(dps)
  }

  /** How many descriptors the counting pass sees from `p` on. */
  function Count(data: seq<Byte>, p: nat, end: int): nat
    requires end < |data|
    decreases end - p
  {
    if p > end || p + HEADER > end then 0 else 1 + Count(data, Next(data, p), end)
  }

  lemma {:induction false} CountIsLength(data: seq<Byte>, p: nat, end: int)
    requires end < |data|
    ensures var w := Walk(data, p, end); w.Walked? ==> |w.dps| == Count(data, p, end)
    decreases end - p
  {
    hide At;
    if p <= end && p + HEADER <= end {
      CountIsLength(data, Next(data, p), end);
    }
  }

  /** The counting pass. */
  method CountDescriptors(data: seq<Byte>, end: int) returns (ok: bool, i: nat)
    requires end < |data|
    ensures ok == !Walk(data, HEADER, end).Partial?
    ensures ok ==> i == Count(data, HEADER, end)
    ensures var w := Walk(data, HEADER, end); w.Walked? ==> i == |w.dps|
  {
    hide At;
    CountIsLength(data, HEADER, end);
    i := 0;
    var p := HEADER;
    while p <= end
      invariant HEADER <= p
      invariant Walk(data, p, end).Partial? == Walk(data, HEADER, end).Partial?
      invariant i + Count(data, p, end) == Count(data, HEADER, end)
      decreases end - p
    {
      if p + HEADER > end {
        return false, 0;
      }
      i := i + 1;
      p := p + data[p + 3] + HEADER;
    }
    return true, i;
  }

  /** Descriptors copied so far and a walk over the rest. */
  function Prepend(dps: seq<Descriptor>, w: Walked): Walked {
    if w.Walked? then Walked(dps + w.dps) else w
  }

  /** The copying pass over as many descriptors as were counted. */
  method CopyDescriptors(data: seq<Byte>, end: int, i: nat) returns (r: Walked)
    requires end < |data| && i == Count(data, HEADER, end) && !Walk(data, HEADER, end).Partial?
    ensures r == Walk(data, HEADER, end)
  {
    hide Walk, Count, At, Copyable, Prepend;
    var dps: seq<Descriptor> := [];
    var p: nat := HEADER;
    PrependNone(Walk(data, HEADER, end));
    while |dps| < i
      invariant |dps| + Count(data, p, end) == i && !Walk(data, p, end).Partial?
      invariant Prepend(dps, Walk(data, p, end)) == Walk(data, HEADER, end)
      decreases i - |dps|
    {
      WalkStep(data, p, end);
      if !Copyable(data, p) {
        PrependOutside(dps);
        return Outside;
      }
      PrependOne(dps, At(data, p), Walk(data, Next(data, p), end));
      dps := dps + [At(data, p)];
      p := p + data[p + 3] + HEADER;
    }
    WalkDone(data, p, end);
    PrependEnd(dps);
    return Walked(dps);
  }

  /** `_sg_parse_vpd_83`: count, then copy as many descriptors; both passes visit the same
      offsets. */
  method ParseVpd83(data: seq<Byte>) returns (r: Result)
    requires |data| == MAX_LEN
    ensures r == Parse(data)
  {
    hide Walk, Count;
    if data[1] != PAGE_CODE {
      return NoSupport;
    }
    var ok, i := CountDescriptors(data, Length(data) - 1);
    if !ok {
      return LibBug;
    }
    var copied := CopyDescriptors(data, Length(data) - 1, i);
    return if copied.Walked? then Ok(copied.dps) else Overrun;
  }

  lemma PrependOutside(dps: seq<Descriptor>)
    ensures Prepend(dps, Outside) == Outside
  {
  }

  lemma PrependEnd(dps: seq<Descriptor>)
    ensures Prepend(dps, Walked([])) == Walked(dps)
  {
  }

  lemma WalkStep(data: seq<Byte>, p: nat, end: int)
    requires end < |data| && Count(data, p, end) > 0
    ensures p + HEADER <= end && Count(data, p, end) == 1 + Count(data, Next(data, p), end)
    ensures Walk(data, p, end).Partial? <==> Walk(data, Next(data, p), end).Partial?
    ensures !Walk(data, p, end).Partial? ==>
              Walk(data, p, end) ==
              if Copyable(data, p) then Prepend([At(data, p)], Walk(data, Next(data, p), end)) else Outside
  {
  }

  lemma WalkDone(data: seq<Byte>, p: nat, end: int)
    requires end < |data| && Count(data, p, end) == 0 && !Walk(data, p, end).Partial?
    ensures Walk(data, p, end) == Walked([])
  {
  }

  lemma PrependNone(w: Walked)
    ensures Prepend([], w) == w
  {
  }

  lemma PrependOne(dps: seq<Descriptor>, d: Descriptor, w: Walked)
    ensures Prepend(dps + [d], w) == Prepend(dps, Prepend([d], w))
  {
    if w.Walked? {
      assert dps + [d] + w.dps == dps + ([d] + w.dps);
    }
  }

  // ----- where the last descriptor ends

  /** Where the counting pass stops: behind the last descriptor, or at a partial one. */
  function Stop(data: seq<Byte>, p: nat, end: int): (r: nat)
    requires end < |data|
    ensures p <= r
    decreases end - p
  {
    if p > end || p + HEADER > end then p else Stop(data, Next(data, p), end)
  }

  function LastEnd(data: seq<Byte>): nat
    requires |data| == MAX_LEN
  {
    Stop(data, HEADER, Length(data) - 1)
  }

  lemma {:induction false} WalkOutcome(data: seq<Byte>, p: nat, end: int)
    requires end < |data| && p <= |data|
    ensures var w, stop := Walk(data, p, end), Stop(data, p, end);
            && (w.Partial? <==> stop <= end)
            && (w.Outside? <==> stop > |data|)
    decreases end - p
  {
    hide At;
    if p <= end && p + HEADER <= end {
      var q := Next(data, p);
      if q <= |data| {
        WalkOutcome(data, q, end);
      } else {
        assert Walk(data, q, end) == Walked([]) && Stop(data, q, end) == q;
      }
    }
  }

  /** The whole outcome by the page code and the end of the last descriptor: not supported
      for another page, refused when that end is inside the page, beyond the buffer when
      that is. */
  lemma OutcomeByLastEnd(data: seq<Byte>)
    requires |data| == MAX_LEN
    ensures Parse(data) == NoSupport <==> data[1] != 0x83
    ensures Parse(data) == LibBug <==> data[1] == 0x83 && LastEnd(data) < Length(data)
    ensures Parse(data) == Overrun <==> data[1] == 0x83 && LastEnd(data) > MAX_LEN
  {
    hide Walk, Stop;
    WalkOutcome(data, HEADER, Length(data) - 1);
  }

  lemma {:induction false} StopBound(data: seq<Byte>, p: nat, end: int)
    requires end < |data| && p <= end + 255
    ensures Stop(data, p, end) <= end + 255
    decreases end - p
  {
    if p <= end && p + HEADER <= end {
      StopBound(data, Next(data, p), end);
    }
  }

  /** What a caller can test: a page that leaves 254 bytes of the buffer free is safe. */
  lemma ShortPageIsSafe(data: seq<Byte>)
    requires |data| == MAX_LEN && Length(data) + 254 <= MAX_LEN
    ensures Parse(data) != Overrun
  {
    hide Stop, Walk;
    if data[1] == PAGE_CODE {
      OutcomeByLastEnd(data);
      StopBound(data, HEADER, Length(data) - 1);
    }
  }

  /** A page of the given length whose last descriptor starts five bytes before its end. */
  function LongPage(len: nat): (r: seq<Byte>)
    requires MAX_LEN - 254 < len <= MAX_LEN
    ensures |r| == MAX_LEN
  {
    seq(MAX_LEN, j requires 0 <= j < MAX_LEN =>
      if j == 1 then PAGE_CODE
      else if j == 2 then (len - HEADER) / 256
      else if j == 3 then (len - HEADER) % 256
      else if j == 7 then (len - 1) % HEADER
      else if j == len - 2 then 255
      else 0)
  }

  lemma {:induction false} LongPageStop(len: nat, p: nat)
    requires MAX_LEN - 254 < len <= MAX_LEN && 2 * HEADER <= p <= len - 5 && (len - 5 - p) % HEADER == 0
    ensures Stop(LongPage(len), p, len - 1) == len + 254
    decreases len - p
  {
    if p < len - 5 {
      LongPageStop(len, p + HEADER);
    }
  }

  /** No weaker test of the length will do: every greater length has a page on which the
      code copies from beyond its buffer. */
  lemma LongPageOverruns(len: nat)
    requires MAX_LEN - 254 < len <= MAX_LEN
    ensures Length(LongPage(len)) == len && Parse(LongPage(len)) == Overrun
  {
    hide Stop, Walk;
    var data := LongPage(len);
    assert Length(data) == len;
    var p := 2 * HEADER + (len - 1) % HEADER;
    assert Next(data, HEADER) == p;
    LongPageStop(len, p);
    assert Stop(data, HEADER, len - 1) == Stop(data, p, len - 1) by { StopNext(data, HEADER, len - 1); }
    OutcomeByLastEnd(data);
  }

  lemma StopNext(data: seq<Byte>, p: nat, end: int)
    requires end < |data| && p + HEADER <= end
    ensures Stop(data, p, end) == Stop(data, Next(data, p), end)
  {
  }

  // ----- encoding

  function Encode(ds: seq<Descriptor>): seq<Byte> {
    if ds == [] then [] else ds[0].header + ds[0].designator + Encode(ds[1..])
  }

  /** A page as a device returns it, in a buffer whose rest is arbitrary. */
  predicate IsPage(data: seq<Byte>, ds: seq<Descriptor>) {
    var n := |Encode(ds)|;
    && |data| == MAX_LEN && HEADER + n <= MAX_LEN
    && data[1] == PAGE_CODE && data[2] as int * 256 + data[3] as int == n
    && data[HEADER..HEADER + n] == Encode(ds)
  }

  lemma SplitSlice(data: seq<Byte>, p: nat, a: seq<Byte>, b: seq<Byte>)
    requires p + |a| + |b| <= |data| && data[p..p + |a| + |b|] == a + b
    ensures data[p..p + |a|] == a && data[p + |a|..p + |a| + |b|] == b
  {
    var s := data[p..p + |a| + |b|];
    assert s[..|a|] == a && s[|a|..] == b;
    assert data[p..p + |a|] == s[..|a|];
    assert data[p + |a|..p + |a| + |b|] == s[|a|..];
  }

  lemma DescriptorAt(data: seq<Byte>, p: nat, d: Descriptor)
    requires Valid(d) && p + HEADER + |d.designator| <= |data|
    requires data[p..p + HEADER] == d.header && data[p + HEADER..p + HEADER + |d.designator|] == d.designator
    ensures Copyable(data, p) && At(data, p) == d && Next(data, p) == p + HEADER + |d.designator|
  {
    assert data[p + 3] == data[p..p + HEADER][3];
  }

  lemma EncodedAt(data: seq<Byte>, p: nat, ds: seq<Descriptor>)
    requires ds != [] && Valid(ds[0])
    requires p + |Encode(ds)| <= |data| && data[p..p + |Encode(ds)|] == Encode(ds)
    ensures Copyable(data, p) && At(data, p) == ds[0]
    ensures var q := Next(data, p);
            q + |Encode(ds[1..])| == p + |Encode(ds)| && data[q..q + |Encode(ds[1..])|] == Encode(ds[1..])
  {
    var d, rest := ds[0], Encode(ds[1..]);
    assert Encode(ds) == d.header + d.designator + rest;
    hide Encode, Copyable, At, Next;
    SplitSlice(data, p, d.header + d.designator, rest);
    SplitSlice(data, p, d.header, d.designator);
    DescriptorAt(data, p, d);
  }

  lemma {:induction false} WalkEncoded(data: seq<Byte>, p: nat, ds: seq<Descriptor>)
    requires forall d | d in ds :: Valid(d)
    requires p + |Encode(ds)| <= |data| && data[p..p + |Encode(ds)|] == Encode(ds)
    ensures Walk(data, p, p + |Encode(ds)| - 1) ==
            if ds != [] && ds[|ds| - 1].designator == [] then Partial else Walked(ds)
    decreases |ds|
  {
    hide At, Valid;
    if ds != [] {
      assert ds[0] in ds;
      EncodedAt(data, p, ds);
      WalkEncoded(data, Next(data, p), ds[1..]);
      assert [ds[0]] + ds[1..] == ds;
      EncodeShape(ds);
    }
  }

  lemma EncodeShape(ds: seq<Descriptor>)
    requires ds != [] && Valid(ds[0])
    ensures |Encode(ds)| == HEADER + |ds[0].designator| + |Encode(ds[1..])|
    ensures |ds| > 1 && Valid(ds[1]) ==> |Encode(ds[1..])| >= HEADER
  {
    if |ds| > 1 && Valid(ds[1]) {
      assert ds[1..][0] == ds[1];
    }
  }

  /** Parsing the page of any list of descriptors gives exactly that list, unless the last
      designator is empty: then, and only then, the page is refused. */
  lemma EncodedListReadBack(data: seq<Byte>, ds: seq<Descriptor>)
    requires (forall d | d in ds :: Valid(d)) && IsPage(data, ds)
    ensures Parse(data) == if ds != [] && ds[|ds| - 1].designator == [] then LibBug else Ok(ds)
  {
    hide Walk, Encode;
    WalkEncoded(data, HEADER, ds);
  }
  // ----- and back

  lemma JoinSlice(data: seq<Byte>, p: nat, q: nat, r: nat)
    requires p <= q <= r <= |data|
    ensures data[p..q] + data[q..r] == data[p..r]
  {
  }

  /** The descriptors of a walk are the text from its start to where it stops. */
  lemma {:induction false} WalkIsText(data: seq<Byte>, p: nat, end: int)
    requires end < |data| && p <= |data| && Walk(data, p, end).Walked?
    ensures var dps, stop := Walk(data, p, end).dps, Stop(data, p, end);
            && stop <= |data| && Encode(dps) == data[p..stop]
            && (forall d | d in dps :: Valid(d))
    decreases end - p
  {
    if p <= end {
      var q := Next(data, p);
      var rest := Walk(data, q, end).dps;
      WalkIsText(data, q, end);
      EncodeCons(At(data, p), rest);
      AtIsText(data, p);
      hide At, Encode, Walk, Valid;
      JoinSlice(data, p, q, Stop(data, q, end));
    }
  }

  lemma EncodeCons(d: Descriptor, ds: seq<Descriptor>)
    ensures Encode([d] + ds) == d.header + d.designator + Encode(ds)
  {
    assert ([d] + ds)[1..] == ds;
  }

  lemma AtIsText(data: seq<Byte>, p: nat)
    requires Copyable(data, p)
    ensures Valid(At(data, p)) && At(data, p).header + At(data, p).designator == data[p..Next(data, p)]
  {
    JoinSlice(data, p, p + HEADER, Next(data, p));
  }

  /** Whatever is accepted is text of the buffer from the first descriptor to the end of
      the last one; it is a page in order exactly when that end is the end of the page. */
  lemma AcceptedIsText(data: seq<Byte>)
    requires |data| == MAX_LEN && Parse(data).Ok?
    ensures var dps, stop := Parse(data).dps, LastEnd(data);
            && Length(data) <= stop <= MAX_LEN && Encode(dps) == data[HEADER..stop]
            && (forall d | d in dps :: Valid(d))
            && (IsPage(data, dps) <==> stop == Length(data))
  {
    hide Walk, Stop, Encode, Valid;
    WalkIsText(data, HEADER, Length(data) - 1);
    OutcomeByLastEnd(data);
  }

  /** Exactly the pages of lists whose last designator is not empty are accepted with the
      last descriptor ending where the page does. */
  lemma AcceptedIff(data: seq<Byte>, ds: seq<Descriptor>)
    requires |data| == MAX_LEN
    ensures Parse(data) == Ok(ds) && LastEnd(data) == Length(data) <==>
            && IsPage(data, ds) && (forall d | d in ds :: Valid(d))
            && (ds == [] || ds[|ds| - 1].designator != [])
  {
    hide Parse, LastEnd, Valid, IsPage;
    if Parse(data) == Ok(ds) {
      AcceptedIsText(data);
    }
    if IsPage(data, ds) && forall d | d in ds :: Valid(d) {
      EncodedListReadBack(data, ds);
    }
  }

  /** A designator that runs past the end of the page is accepted all the same. */
  lemma PastPageAccepted(data: seq<Byte>)
    requires |data| == MAX_LEN && data[1] == PAGE_CODE && data[2] == 0 && data[3] == 5 && data[7] == 200
    ensures Length(data) == 9 && LastEnd(data) == 208
    ensures Parse(data) == Ok([Descriptor(data[4..8], data[8..208])])
  {
    assert Next(data, 4) == 208;
    assert Walk(data, 208, 8) == Walked([]);
  }
}
