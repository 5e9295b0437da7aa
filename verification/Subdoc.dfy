/**
 Cursor-based decoding of multi-result bodies in src/handler.cc: sub-document lookups and
 mutations, and the records of an observe response. A record that runs past the end of the
 body is an overrun: the source then reads behind it or stops at an assertion.
 */
module Subdoc {
  import opened Common
  import opened Framing

  datatype Format = Lookups | Mutations | Observes

  /** The records on the wire. */
  datatype Record =
    | Lookup(rc: nat, value: seq<Byte>)
    | Mutation(index: Byte, rc: nat, value: seq<Byte>)
    | Observed(vbucket: nat, key: seq<Byte>, status: Byte, cas: seq<Byte>)

  const SUCCESS := 0

  ghost predicate OfFormat(fmt: Format, r: Record) {
    match r
    case Lookup(rc, value) => fmt.Lookups? && rc < 0x1_0000 && |value| < UINT32
    case Mutation(_, rc, value) => fmt.Mutations? && rc < 0x1_0000 && |value| < UINT32
      && (rc != SUCCESS ==> value == [])
    case Observed(vb, key, _, cas) => fmt.Observes? && vb < 0x1_0000 && |key| < 0x1_0000 && |cas| == 8
  }

  ghost function Encode(fmt: Format, r: Record): (s: seq<Byte>)
    requires OfFormat(fmt, r)
    ensures |s| > 0
  {
    match r
    case Lookup(rc, value) => Bytes2(rc) + Bytes4(|value|) + value
    case Mutation(index, rc, value) => [index] + Bytes2(rc) + if rc == SUCCESS then Bytes4(|value|) + value else []
    case Observed(vb, key, status, cas) => Bytes2(vb) + Bytes2(|key|) + key + [status] + cas
  }

  ghost predicate AllOf(fmt: Format, rs: seq<Record>) {
    forall i :: 0 <= i < |rs| ==> OfFormat(fmt, rs[i])
  }

  ghost function EncodeAll(fmt: Format, rs: seq<Record>): (s: seq<Byte>)
    requires AllOf(fmt, rs)
  {
    if rs == [] then [] else Encode(fmt, rs[0]) + EncodeAll(fmt, rs[1..])
  }

  // ---------------------------------------------------------------- one record

  /** sdlookup_next on the rest of the body: the record and its size. */
  function NextLookup(buf: seq<Byte>): Option<(Record, nat)> {
    if |buf| < 6 then None
    else
      var n := 6 + BigEndian(buf[2..6]);
      if |buf| < n then None else Some((Lookup(BigEndian(buf[..2]), buf[6..n]), n))
  }

  /** sdmutate_next */
  function NextMutation(buf: seq<Byte>): Option<(Record, nat)> {
    if |buf| < 3 then None
    else
      var rc := BigEndian(buf[1..3]);
      if rc != SUCCESS then Some((Mutation(buf[0], rc, []), 3))
      else if |buf| < 7 then None
      else
        var n := 7 + BigEndian(buf[3..7]);
        if |buf| < n then None else Some((Mutation(buf[0], rc, buf[7..n]), n))
  }

  /** One round of the loop of H_observe. */
  function NextObserved(buf: seq<Byte>): Option<(Record, nat)> {
    if |buf| < 4 then None
    else
      var n := 4 + BigEndian(buf[2..4]);
      if |buf| < n + 9 then None
      else Some((Observed(BigEndian(buf[..2]), buf[4..n], buf[n], buf[n + 1..n + 9]), n + 9))
  }

  function Next(fmt: Format, buf: seq<Byte>): (r: Option<(Record, nat)>)
    ensures r.Some? ==> 0 < r.value.1 <= |buf|
  {
    match fmt
    case Lookups => NextLookup(buf)
    case Mutations => NextMutation(buf)
    case Observes => NextObserved(buf)
  }

  lemma Small(s: seq<Byte>)
    ensures |s| == 2 ==> BigEndian(s) < 0x1_0000 && Bytes2(BigEndian(s)) == s
    ensures |s| == 4 ==> BigEndian(s) < UINT32 && Bytes4(BigEndian(s)) == s
  {
    if |s| == 2 {
      Small2(s);
    } else if |s| == 4 {
      BigEndian4(s);
      Small2(s[..2]);
      Small2(s[2..]);
    }
  }

  lemma Small2(s: seq<Byte>)
    requires |s| == 2
    ensures BigEndian(s) < 0x1_0000 && Bytes2(BigEndian(s)) == s
  {
    BigEndian2(s);
  }

  /** Reading takes off exactly the record that was written. */
  lemma NextUndoes(fmt: Format, r: Record, tail: seq<Byte>)
    requires OfFormat(fmt, r)
    ensures Next(fmt, Encode(fmt, r) + tail) == Some((r, |Encode(fmt, r)|))
  {
    hide BigEndian, Bytes2, Bytes4;
    var b := Encode(fmt, r) + tail;
    match r {
      case Lookup(rc, value) =>
        assert b[..2] == Bytes2(rc) && b[2..6] == Bytes4(|value|) && b[6..6 + |value|] == value;
      case Mutation(index, rc, value) =>
        assert b[1..3] == Bytes2(rc);
        if rc == SUCCESS {
          assert b[3..7] == Bytes4(|value|) && b[7..7 + |value|] == value;
        }
      case Observed(vb, key, status, cas) =>
        var n := 4 + |key|;
        assert b[..2] == Bytes2(vb) && b[2..4] == Bytes2(|key|) && b[4..n] == key && b[n] == status
          && b[n + 1..n + 9] == cas;
    }
  }

  /** A record that was read is the encoding of itself. */
  lemma NextIsEncoded(fmt: Format, buf: seq<Byte>)
    requires Next(fmt, buf).Some?
    ensures var (r, n) := Next(fmt, buf).value; OfFormat(fmt, r) && Encode(fmt, r) == buf[..n]
  {
    hide BigEndian, Bytes2, Bytes4;
    var (r, n) := Next(fmt, buf).value;
    match fmt {
      case Lookups =>
        Small(buf[..2]);
        Small(buf[2..6]);
      case Mutations =>
        Small(buf[1..3]);
        if r.rc == SUCCESS {
          Small(buf[3..7]);
        }
      case Observes =>
        Small(buf[..2]);
        Small(buf[2..4]);
    }
  }

  // ---------------------------------------------------------------- the whole body

  /** The records of a body, or None on an overrun. */
  function Decode(fmt: Format, buf: seq<Byte>): (r: Option<seq<Record>>)
    decreases |buf|
  {
    if buf == [] then Some([])
    else match Next(fmt, buf)
      case None => None
      case Some((rec, n)) =>
        match Decode(fmt, buf[n..])
        case None => None
        case Some(rs) => Some([rec] + rs)
  }

  /** A body decodes to some records exactly when it is their encodings one after the other. */
  lemma {:induction false} DecodesIff(fmt: Format, buf: seq<Byte>, rs: seq<Record>)
    ensures Decode(fmt, buf) == Some(rs) <==> AllOf(fmt, rs) && EncodeAll(fmt, rs) == buf
    decreases |buf| + |rs|
  {
    hide Next, Encode, OfFormat;
    if Decode(fmt, buf) == Some(rs) && buf != [] {
      var (r, n) := Next(fmt, buf).value;
      NextIsEncoded(fmt, buf);
      DecodesIff(fmt, buf[n..], rs[1..]);
      assert rs[0] == r && rs == [r] + rs[1..] && buf == buf[..n] + buf[n..];
    }
    if AllOf(fmt, rs) && EncodeAll(fmt, rs) == buf && rs != [] {
      NextUndoes(fmt, rs[0], EncodeAll(fmt, rs[1..]));
      var n := |Encode(fmt, rs[0])|;
      assert buf[n..] == EncodeAll(fmt, rs[1..]);
      DecodesIff(fmt, buf[n..], rs[1..]);
      assert rs == [rs[0]] + rs[1..];
    }
  }

  // ---------------------------------------------------------------- sub-document results

  /** lcb_SDENTRY as far as the decoding sets it; no value on an error. */
  datatype Entry = Entry(status: int, value: Option<seq<Byte>>)

  const NO_ENTRY := Entry(0, None)

  /** lcb_map_error without an instance; 0 is LCB_SUCCESS. */
  type StatusMap = f: nat -> int | f(SUCCESS) == 0 witness (_ => 0)

  function EntryOf(r: Record, errors: StatusMap): Entry
    requires !r.Observed?
  {
    if r.Lookup? then Entry(errors(r.rc), if errors(r.rc) == 0 then Some(r.value) else None)
    else Entry(errors(r.rc), if r.rc == SUCCESS then Some(r.value) else None)
  }

  /** The slot of record `i`. */
  function SlotOf(rs: seq<Record>, i: nat): nat
    requires i < |rs|
  {
    if rs[i].Mutation? then rs[i].index else i
  }

  ghost predicate Multi(rs: seq<Record>) {
    forall i :: 0 <= i < |rs| ==> !rs[i].Observed?
  }

  /** The result array of lcb_sdresult_parse after some records. */
  function Results(rs: seq<Record>, n: nat, nres: nat, errors: StatusMap): (r: seq<Entry>)
    requires Multi(rs) && n <= |rs| && forall i :: 0 <= i < n ==> SlotOf(rs, i) < nres
    ensures |r| == nres
  {
    if n == 0 then seq(nres, _ => NO_ENTRY)
    else Results(rs, n - 1, nres, errors)[SlotOf(rs, n - 1) := EntryOf(rs[n - 1], errors)]
  }

  /** A slot holds the last record with its index. */
  lemma {:induction false} ResultIsLast(rs: seq<Record>, n: nat, nres: nat, errors: StatusMap, i: nat)
    requires Multi(rs) && i < n <= |rs| && forall j :: 0 <= j < n ==> SlotOf(rs, j) < nres
    requires forall j :: i < j < n ==> SlotOf(rs, j) != SlotOf(rs, i)
    ensures Results(rs, n, nres, errors)[SlotOf(rs, i)] == EntryOf(rs[i], errors)
  {
    hide EntryOf, SlotOf;
    if i < n - 1 {
      ResultIsLast(rs, n - 1, nres, errors, i);
      assert SlotOf(rs, n - 1) != SlotOf(rs, i);
    }
  }

  /** A slot no record names stays empty. */
  lemma {:induction false} ResultIsEmpty(rs: seq<Record>, n: nat, nres: nat, errors: StatusMap, k: nat)
    requires Multi(rs) && n <= |rs| && k < nres && forall j :: 0 <= j < n ==> SlotOf(rs, j) < nres
    requires forall j :: 0 <= j < n ==> SlotOf(rs, j) != k
    ensures Results(rs, n, nres, errors)[k] == NO_ENTRY
  {
    hide EntryOf, SlotOf;
    if n > 0 {
      ResultIsEmpty(rs, n - 1, nres, errors, k);
      assert SlotOf(rs, n - 1) != k;
    }
  }

  /**
   What a server sends arrives: if the records have different slots that all exist, the body decodes and
   the slot of each record has its value, or none if its status is an error.
   */
  lemma ResultsDelivered(fmt: Format, rs: seq<Record>, nres: nat, errors: StatusMap, i: nat)
    requires !fmt.Observes? && AllOf(fmt, rs) && i < |rs| && (forall k :: 0 <= k < |rs| ==> SlotOf(rs, k) < nres)
    requires forall k :: 0 <= k < |rs| && k != i ==> SlotOf(rs, k) != SlotOf(rs, i)
    ensures Decode(fmt, EncodeAll(fmt, rs)) == Some(rs) && Multi(rs)
    ensures rs[i].rc == SUCCESS ==> Results(rs, |rs|, nres, errors)[SlotOf(rs, i)] == Entry(0, Some(rs[i].value))
    ensures errors(rs[i].rc) != 0 ==> Results(rs, |rs|, nres, errors)[SlotOf(rs, i)] == Entry(errors(rs[i].rc), None)
  {
    hide Results, EncodeAll, Decode;
    DecodesIff(fmt, EncodeAll(fmt, rs), rs);
    ResultIsLast(rs, |rs|, nres, errors, i);
  }

  /** Two records that are cut off: one in its header, one in its value. */
  lemma CutOff()
    ensures Decode(Lookups, [0, 0, 0, 0]) == None && Decode(Lookups, [0, 0, 0, 0, 0, 5, 65]) == None
  {
    assert [0, 0, 0, 0, 0, 5, 65][2..6] == [0, 0, 0, 5];
    BigEndian4([0, 0, 0, 5]);
    BigEndian2([0, 0, 0, 5][..2]);
    BigEndian2([0, 0, 0, 5][2..]);
  }

  datatype Outcome = Parsed(entries: seq<Entry>) | Overrun | BadSlot     // BadSlot: a write outside the result array

  /** Every record of the body has a slot. */
  ghost predicate Slotted(rs: seq<Record>, nres: nat) {
    forall i :: 0 <= i < |rs| ==> SlotOf(rs, i) < nres
  }

  lemma {:induction false} DecodedMulti(fmt: Format, buf: seq<Byte>)
    requires !fmt.Observes? && Decode(fmt, buf).Some?
    ensures Multi(Decode(fmt, buf).value)
    decreases |buf|
  {
    hide NextLookup, NextMutation;
    if buf != [] {
      NextKind(fmt, buf);
      DecodedMulti(fmt, buf[Next(fmt, buf).value.1..]);
    }
  }

  lemma NextKind(fmt: Format, buf: seq<Byte>)
    requires Next(fmt, buf).Some? && !fmt.Observes?
    ensures !Next(fmt, buf).value.0.Observed?
  {
  }

  // ---------------------------------------------------------------- the loops

  /** sdlookup_next at a cursor inside the body. */
  method LookupNext(value: seq<Byte>, iter: nat) returns (r: Option<(Record, nat)>)
    requires iter < |value|
    ensures r == NextLookup(value[iter..])
  {
    hide BigEndian;
    ghost var buf := value[iter..];
    if |value| < iter + 6 {
      return None;
    }
    var rc := BigEndian(value[iter..iter + 2]);
    var vlen := BigEndian(value[iter + 2..iter + 6]);
    assert buf[..2] == value[iter..iter + 2] && buf[2..6] == value[iter + 2..iter + 6];
    if |value| < iter + 6 + vlen {
      return None;
    }
    assert buf[6..6 + vlen] == value[iter + 6..iter + 6 + vlen];
    r := Some((Lookup(rc, value[iter + 6..iter + 6 + vlen]), 6 + vlen));
  }

  /** sdmutate_next at a cursor inside the body. */
  method MutationNext(value: seq<Byte>, iter: nat) returns (r: Option<(Record, nat)>)
    requires iter < |value|
    ensures r == NextMutation(value[iter..])
  {
    hide BigEndian;
    ghost var buf := value[iter..];
    var index := value[iter];
    var at := iter + 1;
    if |value| < at + 2 {
      return None;
    }
    var rc := BigEndian(value[at..at + 2]);
    assert buf[1..3] == value[at..at + 2];
    at := at + 2;
    if rc != SUCCESS {
      return Some((Mutation(index, rc, []), at - iter));
    }
    if |value| < at + 4 {
      return None;
    }
    var vlen := BigEndian(value[at..at + 4]);
    assert buf[3..7] == value[at..at + 4];
    at := at + 4;
    if |value| < at + vlen {
      return None;
    }
    assert buf[7..7 + vlen] == value[at..at + vlen];
    r := Some((Mutation(index, rc, value[at..at + vlen]), at + vlen - iter));
  }

  /** lcb_sdresult_parse on a multi-lookup or multi-mutation response. */
  method ParseResults(fmt: Format, value: seq<Byte>, nres: nat, errors: StatusMap) returns (out: Outcome)
    requires !fmt.Observes?
    ensures out.Parsed? <==> Decode(fmt, value).Some? && Slotted(Decode(fmt, value).value, nres)
    ensures out.Parsed? ==>
      (DecodedMulti(fmt, value);
       out.entries == Results(Decode(fmt, value).value, |Decode(fmt, value).value|, nres, errors))
    ensures out.Overrun? ==> Decode(fmt, value) == None
  {
    hide NextLookup, NextMutation, NextObserved;
    var results := new Entry[nres](_ => NO_ENTRY);
    var iter, oix := 0, 0;
    ghost var done: seq<Record> := [];
    assert value[0..] == value && results[..] == seq(nres, _ => NO_ENTRY);
    WithNone(Decode(fmt, value));
    while iter != |value|
      invariant iter <= |value| && oix == |done| && Multi(done) && Slotted(done, nres)
      invariant Decode(fmt, value) == With(done, Decode(fmt, value[iter..]))
      invariant results[..] == Results(done, |done|, nres, errors)
      decreases |value| - iter
    {
      ghost var buf := value[iter..];
      var next;
      if fmt.Lookups? {
        next := LookupNext(value, iter);
      } else {
        next := MutationNext(value, iter);
      }
      if next.None? {
        return Overrun;
      }
      var (rec, n) := next.value;
      NextKind(fmt, buf);
      WithOne(done, rec, Decode(fmt, buf[n..]));
      assert buf[n..] == value[iter + n..];
      var index := oix;
      oix := oix + 1;
      if rec.Mutation? {
        index := rec.index;
      }
      ghost var more := done + [rec];
      assert SlotOf(more, |done|) == index;
      if index >= nres {
        SlotStays(more, Decode(fmt, value[iter + n..]), nres);
        return BadSlot;
      }
      SlotsMore(done, rec, nres);
      PrefixResults(done, more, nres, errors);
      results[index] := EntryOf(rec, errors);
      done := more;
      iter := iter + n;
    }
    assert value[iter..] == [] && done + [] == done;
    out := Parsed(results[..]);
  }

  ghost function With(done: seq<Record>, more: Option<seq<Record>>): Option<seq<Record>> {
    if more.Some? then Some(done + more.value) else None
  }

  lemma WithNone(more: Option<seq<Record>>)
    ensures With([], more) == more
  {
    if more.Some? {
      assert [] + more.value == more.value;
    }
  }

  lemma WithOne(done: seq<Record>, rec: Record, more: Option<seq<Record>>)
    ensures With(done, With([rec], more)) == With(done + [rec], more)
  {
    if more.Some? {
      assert done + ([rec] + more.value) == done + [rec] + more.value;
    }
  }

  lemma SlotStays(done: seq<Record>, more: Option<seq<Record>>, nres: nat)
    requires done != [] && SlotOf(done, |done| - 1) >= nres
    ensures With(done, more).Some? ==> !Slotted(With(done, more).value, nres)
  {
    if more.Some? {
      assert SlotOf(done + more.value, |done| - 1) == SlotOf(done, |done| - 1);
    }
  }

  lemma SlotsMore(done: seq<Record>, rec: Record, nres: nat)
    requires Slotted(done, nres) && SlotOf(done + [rec], |done|) < nres
    ensures Slotted(done + [rec], nres)
  {
    forall i | 0 <= i < |done| ensures SlotOf(done + [rec], i) < nres {
      assert SlotOf(done + [rec], i) == SlotOf(done, i);
    }
  }

  lemma PrefixResults(done: seq<Record>, more: seq<Record>, nres: nat, errors: StatusMap)
    requires Multi(more) && Slotted(more, nres) && |more| == |done| + 1 && done == more[..|done|]
    requires Multi(done) && Slotted(done, nres)
    ensures Results(more, |done|, nres, errors) == Results(done, |done|, nres, errors)
  {
    PrefixOf(done, more, |done|, nres, errors);
  }

  lemma {:induction false} PrefixOf(done: seq<Record>, more: seq<Record>, n: nat, nres: nat, errors: StatusMap)
    requires n <= |done| <= |more| && done == more[..|done|] && Multi(more) && Slotted(more, nres) && Multi(done)
      && Slotted(done, nres)
    ensures Results(more, n, nres, errors) == Results(done, n, nres, errors)
  {
    if n > 0 {
      PrefixOf(done, more, n - 1, nres, errors);
      assert SlotOf(more, n - 1) == SlotOf(done, n - 1);
    }
  }

  /** One round of the loop of H_observe at a cursor inside the body. */
  method ObservedNext(value: seq<Byte>, start: nat) returns (r: Option<(Record, nat)>)
    requires start < |value|
    ensures r == NextObserved(value[start..])
  {
    hide BigEndian;
    ghost var buf := value[start..];
    var ptr := start;
    if |value| < ptr + 4 {
      return None;
    }
    var vb := BigEndian(value[ptr..ptr + 2]);
    var nkey := BigEndian(value[ptr + 2..ptr + 4]);
    assert buf[..2] == value[ptr..ptr + 2] && buf[2..4] == value[ptr + 2..ptr + 4];
    ptr := ptr + 4;
    if |value| < ptr + nkey + 9 {
      return None;
    }
    var key := value[ptr..ptr + nkey];
    assert buf[4..4 + nkey] == key;
    ptr := ptr + nkey;
    var obs, cas := value[ptr], value[ptr + 1..ptr + 9];
    assert buf[4 + nkey] == obs && buf[5 + nkey..13 + nkey] == cas;
    r := Some((Observed(vb, key, obs, cas), 13 + nkey));
  }

  /** The record loop of H_observe; `overrun` when the last record is cut off. */
  method ObserveRecords(value: seq<Byte>) returns (records: seq<Record>, overrun: bool)
    ensures overrun == Decode(Observes, value).None?
    ensures !overrun ==> records == Decode(Observes, value).value
  {
    hide NextObserved;
    records, overrun := [], false;
    var ptr, end := 0, |value|;
    assert value[0..] == value;
    WithNone(Decode(Observes, value));
    while ptr < end
      invariant ptr <= end == |value| && Decode(Observes, value) == With(records, Decode(Observes, value[ptr..]))
    {
      ghost var buf := value[ptr..];
      var next := ObservedNext(value, ptr);
      if next.None? {
        return records, true;
      }
      var (rec, n) := next.value;
      WithOne(records, rec, Decode(Observes, buf[n..]));
      assert buf[n..] == value[ptr + n..];
      records := records + [rec];
      ptr := ptr + n;
    }
    assert value[ptr..] == [] && records + [] == records;
  }
}
