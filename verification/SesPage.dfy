/** The enclosure control page of c_binding/libses.c: a status page is turned in place into
    a control page that selects one device slot (sections 6.1.3 and 7.2.2 of SES-3). */
module SesPage {

  type Byte = bv8

  /** Size of the buffers, header and elements. */
  const MAX_LEN := 0xffff
  const HDR := 8
  const ELEM := 4

  const SELECT: Byte := 0x80
  const PRDFAIL: Byte := 0x40

  datatype Control = Ident | Fault

  datatype Action = Set | Clear

  /** Byte and bit of the request in a control element. */
  function CtrlByte(c: Control): nat {
    if c == Ident then 2 else 3
  }

  function CtrlBit(c: Control): Byte {
    if c == Ident then 0x02 else 0x20
  }

  /** The big-endian length field: the bytes that follow it. */
  function PageLength(data: seq<Byte>): (n: nat)
    requires |data| >= 4
    ensures n <= 0xffff
  {
    data[2] as int * 256 + data[3] as int
  }

  function Offset(index: nat): nat {
    HDR + ELEM * index
  }

  /** The bounds check of `_ses_raw_status_get`. */
  predicate InBounds(data: seq<Byte>, index: nat)
    requires |data| >= 4
  {
    var end := PageLength(data) + 4;
    end < MAX_LEN && Offset(index) < end && Offset(index) + ELEM <= end
  }

  /** The check accepts exactly the elements of a page that is short enough: the page has
      four bytes less than its length field says for elements. */
  lemma InBoundsIff(data: seq<Byte>, index: nat)
    requires |data| >= 4
    ensures InBounds(data, index) <==> PageLength(data) <= 65530 && index < (PageLength(data) - 4) / 4
  {
    hide PageLength;
  }

  /** The element to send: only PRDFAIL is kept in byte 0, SELECT is set, and the
      requested bit is set or cleared. */
  function Edited(status: seq<Byte>, control: Control, action: Action): (r: seq<Byte>)
    requires |status| == ELEM
    ensures |r| == ELEM
  {
    var b := CtrlByte(control);
    var s := status[0 := (status[0] & PRDFAIL) | SELECT];
    s[b := if action == Set then s[b] | CtrlBit(control) else s[b] & !CtrlBit(control)]
  }

  predicate Selected(data: seq<Byte>, index: nat)
    requires Offset(index) < |data|
  {
    data[Offset(index)] & SELECT != 0
  }

  // ----- memory

  /** The status page is in a buffer of MAX_LEN bytes; the code also gets at what follows
      that buffer in memory, but no further than this. */
  const REACH := MAX_LEN + 2

  /** `_ses_raw_status_get`: the element's four bytes, or zeros and an error. */
  method RawStatusGet(mem: array<Byte>, index: nat) returns (ok: bool, status: seq<Byte>)
    requires mem.Length >= MAX_LEN
    ensures ok == InBounds(mem[..], index)
    ensures |status| == ELEM
    ensures ok ==> status == mem[Offset(index)..Offset(index) + ELEM]
    ensures !ok ==> status == [0, 0, 0, 0]
  {
    var end := mem[2] as int * 256 + mem[3] as int + 4;
    var p := Offset(index);
    if end >= MAX_LEN || p >= end || p + ELEM > end {
      return false, [0, 0, 0, 0];
    }
    return true, mem[p..p + ELEM];
  }

  /** An element would start here, counting on past the end of the page. */
  predicate ElementStart(j: nat) {
    j >= HDR && (j - HDR) % ELEM == 0
  }

  /** A byte of memory after the clearing loop, which runs to the header size plus the
      length field and so four bytes past the page. */
  function Cleared(before: seq<Byte>, j: nat): Byte
    requires |before| >= 4 && j < |before|
  {
    if j < HDR + PageLength(before) && ElementStart(j) then before[j] & !SELECT else before[j]
  }

  lemma ElementStep(p: nat)
    requires ElementStart(p)
    ensures ElementStart(p + ELEM)
    ensures forall j | p < j < p + ELEM :: !ElementStart(j)
  {
  }

  /** The clearing loop of `_ses_ctrl_data_gen`. */
  method ClearSelects(mem: array<Byte>)
    requires mem.Length >= REACH && PageLength(mem[..]) + 4 < MAX_LEN
    modifies mem
    ensures forall j | 0 <= j < mem.Length :: mem[j] == Cleared(old(mem[..]), j)
  {
    ghost var before := mem[..];
    var end := HDR + (mem[2] as int * 256 + mem[3] as int);
    assert end == HDR + PageLength(before);
    hide PageLength;
    var p := HDR;
    assert ElementStart(p);
    while p < end
      invariant p <= end + 3 && ElementStart(p)
      invariant forall j | 0 <= j < p && j < mem.Length :: mem[j] == Cleared(before, j)
      invariant forall j | p <= j < mem.Length :: mem[j] == before[j]
    {
      LastElement(p);
      hide ElementStart;
      ElementStep(p);
      mem[p] := mem[p] & !SELECT;
      p := p + ELEM;
    }
  }

  /** The last place where the loop can find an element. */
  lemma LastElement(p: nat)
    requires ElementStart(p) && p < HDR + MAX_LEN - 4
    ensures p < REACH
  {
  }

  /** `_ses_ctrl_data_gen`. */
  method CtrlDataGen(mem: array<Byte>, status: seq<Byte>, index: nat) returns (len: nat)
    requires mem.Length >= REACH && |status| == ELEM && InBounds(mem[..], index)
    modifies mem
    ensures len == PageLength(old(mem[..])) + 4
    ensures mem[Offset(index)..Offset(index) + ELEM] == status
    ensures forall j | 0 <= j < mem.Length && !(Offset(index) <= j < Offset(index) + ELEM) ::
              mem[j] == Cleared(old(mem[..]), j)
  {
    hide Cleared, ElementStart;
    len := mem[2] as int * 256 + mem[3] as int + 4;
    ClearSelects(mem);
    CopyElement(mem, Offset(index), status);
  }

  /** The memcpy of an element. */
  method CopyElement(mem: array<Byte>, p: nat, status: seq<Byte>)
    requires p + ELEM <= mem.Length && |status| == ELEM
    modifies mem
    ensures mem[p..p + ELEM] == status
    ensures forall j | 0 <= j < mem.Length && !(p <= j < p + ELEM) :: mem[j] == old(mem[j])
  {
    for k := 0 to ELEM
      invariant forall i | 0 <= i < k :: mem[p + i] == status[i]
      invariant forall j | 0 <= j < mem.Length && !(p <= j < p + ELEM) :: mem[j] == old(mem[j])
    {
      mem[p + k] := status[k];
    }
  }

  /** The page edits of `_ses_dev_slot_ctrl`: read the element, edit it, write it back into
      the page as the only selected one. */
  method DevSlotCtrl(mem: array<Byte>, index: nat, control: Control, action: Action) returns (ok: bool, len: nat)
    requires mem.Length >= REACH
    modifies mem
    ensures ok == old(InBounds(mem[..], index))
    ensures !ok ==> mem[..] == old(mem[..])
    ensures ok ==> len == PageLength(old(mem[..])) + 4
    ensures ok ==> ControlPage(old(mem[..]), mem[..], len, index, control, action)
    ensures ok ==> Outside(old(mem[..]), mem[..])
  {
    len := 0;
    var status;
    ok, status := RawStatusGet(mem, index);
    if ok {
      ghost var before := mem[..];
      len := CtrlDataGen(mem, Edited(status, control, action), index);
      PageIsControlPage(before, mem[..], len, index, control, action);
      MemoryOutside(before, mem[..], index);
    }
  }

  // ----- past the end of the buffer

  /** Every byte that the clearing loop gets at is in the buffer. */
  ghost predicate LoopInBuffer(data: seq<Byte>)
    requires |data| >= 4
  {
    forall j: nat | ElementStart(j) && j < HDR + PageLength(data) :: j < MAX_LEN
  }

  const LONGEST := 65528

  /** For a page that passes the bounds check the loop stays in the buffer exactly when the
      length field is at most 65528. */
  lemma LoopInBufferIff(data: seq<Byte>, index: nat)
    requires |data| >= 4 && InBounds(data, index)
    ensures LoopInBuffer(data) <==> PageLength(data) <= LONGEST
  {
    hide PageLength;
    assert ElementStart(HDR + LONGEST);
  }

  /** A page that passes the bounds check and takes the loop out of the buffer. */
  lemma LoopLeavesBuffer(data: seq<Byte>)
    requires |data| >= MAX_LEN && data[2] == 0xff && data[3] == 0xf9
    ensures InBounds(data, 0) && !LoopInBuffer(data)
  {
    assert PageLength(data) == 65529;
    LoopInBufferIff(data, 0);
  }

  /** Memory after the buffer: only a page longer than 65528 changes it, and then nothing
      but the SELECT bit of the second byte. */
  ghost predicate Outside(before: seq<Byte>, after: seq<Byte>) {
    && |before| == |after| >= REACH
    && forall j | MAX_LEN <= j < |after| ::
         after[j] == if j == MAX_LEN + 1 && PageLength(before) > LONGEST then before[j] & !SELECT else before[j]
  }

  lemma MemoryOutside(before: seq<Byte>, after: seq<Byte>, index: nat)
    requires |before| == |after| >= REACH && InBounds(before, index)
    requires forall j | 0 <= j < |after| && !(Offset(index) <= j < Offset(index) + ELEM) ::
               after[j] == Cleared(before, j)
    ensures Outside(before, after)
  {
    hide PageLength;
    forall j | MAX_LEN <= j < |after|
      ensures after[j] == if j == MAX_LEN + 1 && PageLength(before) > LONGEST then before[j] & !SELECT else before[j]
    {
      assert after[j] == Cleared(before, j);
    }
  }

  // ----- the control page

  /** Exactly one element of the page is selected, the requested one. */
  ghost predicate OnlySelected(after: seq<Byte>, len: nat, index: nat)
    requires len <= |after|
  {
    forall k: nat | Offset(k) + ELEM <= len :: Selected(after, k) <==> k == index
  }

  /** Only bit `bit` of byte `b` may differ, and it is as requested; byte 0 keeps bit 6 and
      gets bit 7, and the other two bytes are kept. */
  ghost predicate BitRequested(was: seq<Byte>, now: seq<Byte>, b: nat, bit: Byte, action: Action)
    requires |was| == |now| == ELEM && 0 < b < ELEM
  {
    && (now[b] & bit != 0 <==> action == Set) && now[b] | bit == was[b] | bit
    && now[0] == (was[0] & 0x40) | 0x80
    && forall i | 0 < i < ELEM && i != b :: now[i] == was[i]
  }

  /** RQST IDENT is bit 1 of byte 2, RQST FAULT is bit 5 of byte 3. */
  ghost predicate Requested(was: seq<Byte>, now: seq<Byte>, control: Control, action: Action)
    requires |was| == |now| == ELEM
  {
    match control
    case Ident => BitRequested(was, now, 2, 0x02, action)
    case Fault => BitRequested(was, now, 3, 0x20, action)
  }

  /** Outside the element only SELECT bits have changed. */
  ghost predicate RestKept(before: seq<Byte>, after: seq<Byte>, len: nat, p: nat)
    requires len <= |before| && |before| == |after|
  {
    forall j | 0 <= j < len && !(p <= j < p + ELEM) ::
      after[j] == before[j] || (ElementStart(j) && after[j] == before[j] & !SELECT)
  }

  /** `after` is the control page for `before`. */
  ghost predicate ControlPage(before: seq<Byte>, after: seq<Byte>, len: nat, index: nat,
                              control: Control, action: Action) {
    var p := Offset(index);
    && |before| == |after| >= MAX_LEN && p + ELEM <= len <= MAX_LEN
    && OnlySelected(after, len, index)
    && Requested(before[p..p + ELEM], after[p..p + ELEM], control, action)
    && RestKept(before, after, len, p)
  }

  lemma EditedBits(s: seq<Byte>, control: Control, action: Action)
    requires |s| == ELEM
    ensures Requested(s, Edited(s, control, action), control, action)
    ensures Edited(s, control, action)[0] & SELECT != 0
  {
  }

  lemma ClearedBit(b: Byte)
    ensures (b & !SELECT) & SELECT == 0
  {
  }

  lemma OneSelected(before: seq<Byte>, after: seq<Byte>, len: nat, index: nat)
    requires 4 <= len <= |before| && |before| == |after| && Offset(index) + ELEM <= len <= HDR + PageLength(before)
    requires after[Offset(index)] & SELECT != 0
    requires forall j | 0 <= j < len && !(Offset(index) <= j < Offset(index) + ELEM) :: after[j] == Cleared(before, j)
    ensures OnlySelected(after, len, index)
  {
    hide PageLength;
    forall k: nat | Offset(k) + ELEM <= len ensures Selected(after, k) <==> k == index {
      if k != index {
        assert after[Offset(k)] == Cleared(before, Offset(k));
        ClearedBit(before[Offset(k)]);
      }
    }
  }

  /** Clearing every SELECT bit and writing the edited element makes the control page. */
  lemma PageIsControlPage(before: seq<Byte>, after: seq<Byte>, len: nat, index: nat, control: Control, action: Action)
    requires |before| == |after| >= MAX_LEN && InBounds(before, index) && len == PageLength(before) + 4
    requires after[Offset(index)..Offset(index) + ELEM] ==
             Edited(before[Offset(index)..Offset(index) + ELEM], control, action)
    requires forall j | 0 <= j < len && !(Offset(index) <= j < Offset(index) + ELEM) :: after[j] == Cleared(before, j)
    ensures ControlPage(before, after, len, index, control, action)
  {
    hide Edited, PageLength, OnlySelected, Requested;
    var p := Offset(index);
    EditedBits(before[p..p + ELEM], control, action);
    assert after[p] == after[p..p + ELEM][0];
    OneSelected(before, after, len, index);
  }
}
