/**
  The alarm daemon's two lists: the alarms that are on, which must agree with the alarm vector, and the newest
  changes, kept for upload under ids that count from 1. CompareAlarm turns the difference between the old and the
  new vector into changes of both.
 */
module Alarm {

  /** struct alminfo_t; times are kept as the clock gave them. */
  datatype Record = Record(id: nat, inx: nat, on: bool, ti: int)

  const ZERO: Record := Record(0, 0, false, 0)

  const CUR: nat := 50

  const UPLOAD: nat := 20

  const MAX_ID: nat := 0xffff_ffff

  /** An alarm that went on or off. */
  datatype Change = Change(inx: nat, on: bool, ti: int)

  /** A list and its static record_inx. */
  datatype Numbered = Numbered(list: seq<Record>, last: nat)

  // ---------- the list of current alarms ----------

  function FirstOff(list: seq<Record>): (r: nat)
    ensures r <= |list| && (r < |list| ==> !list[r].on)
    ensures forall j :: 0 <= j < r ==> list[j].on
  {
    if list == [] || !list[0].on then 0 else 1 + FirstOff(list[1..])
  }

  function FirstOn(list: seq<Record>, inx: nat): (r: nat)
    ensures r <= |list| && (r < |list| ==> list[r].on && list[r].inx == inx)
    ensures forall j :: 0 <= j < r ==> !(list[j].on && list[j].inx == inx)
  {
    if list == [] || (list[0].on && list[0].inx == inx) then 0 else 1 + FirstOn(list[1..], inx)
  }

  function NextId(last: nat): nat { if last + 1 >= MAX_ID then 0 else last + 1 }

  /** set_cur_alarm_info: the first free place; nothing when the list is full. */
  function Raised(c: Numbered, inx: nat, ti: int): Numbered {
    var i := FirstOff(c.list);
    if i < |c.list| then Numbered(c.list[i := Record(c.last + 1, inx, true, ti)], NextId(c.last)) else c
  }

  /** del_cur_alarm_info. */
  function Cleared(c: Numbered, inx: nat): Numbered {
    var i := FirstOn(c.list, inx);
    if i < |c.list| then c.(list := c.list[i := ZERO]) else c
  }

  function CurStep(c: Numbered, was: bool, now: bool, inx: nat, ti: int): Numbered {
    if !was && now then Raised(c, inx, ti) else if was && !now then Cleared(c, inx) else c
  }

  /** The list after the first n alarms have been compared. */
  function CurAfter(c: Numbered, was: seq<bool>, now: seq<bool>, ti: seq<int>, n: nat): Numbered
    requires n <= |was| == |now| == |ti|
  {
    if n == 0 then c else CurStep(CurAfter(c, was, now, ti, n - 1), was[n - 1], now[n - 1], n - 1, ti[n - 1])
  }

  // ---------- the list of changes ----------

  function FirstFree(list: seq<Record>): (r: nat)
    ensures r <= |list| && (r < |list| ==> list[r].id == 0)
    ensures forall j :: 0 <= j < r ==> list[j].id != 0
  {
    if list == [] || list[0].id == 0 then 0 else 1 + FirstFree(list[1..])
  }

  /** The first place of the least id among the first n. */
  function Oldest(list: seq<Record>, n: nat): (r: nat)
    requires 0 < n <= |list|
    ensures r < n && forall j :: 0 <= j < n ==> list[r].id <= list[j].id
  {
    if n == 1 then 0
    else
      var m := Oldest(list, n - 1);
      if list[m].id > list[n - 1].id then n - 1 else m
  }

  function Place(list: seq<Record>): (r: nat)
    requires list != []
    ensures r < |list|
  {
    if FirstFree(list) < |list| then FirstFree(list) else Oldest(list, |list|)
  }

  /** set_upload_alarm_info, and the clearing by its caller when the ids are used up. */
  function Uploaded(u: Numbered, t: Change): Numbered
    requires u.list != []
  {
    if u.last + 1 >= MAX_ID then Numbered(seq(|u.list|, _ => ZERO), 0)
    else Numbered(Recorded(u, t), u.last + 1)
  }

  /** The list with the change recorded under the last id, before it is cleared. */
  function Recorded(u: Numbered, t: Change): seq<Record>
    requires u.list != []
  {
    u.list[Place(u.list) := Record(u.last + 1, t.inx, t.on, t.ti)]
  }

  function UploadStep(u: Numbered, was: bool, now: bool, inx: nat, ti: int): Numbered
    requires u.list != []
  {
    if was != now then Uploaded(u, Change(inx, now, ti)) else u
  }

  function UploadedAll(u: Numbered, ts: seq<Change>): (r: Numbered)
    requires u.list != []
    ensures |r.list| == |u.list|
  {
    if ts == [] then u else Uploaded(UploadedAll(u, ts[..|ts| - 1]), ts[|ts| - 1])
  }

  /** The changes among the first n alarms. */
  function Changes(was: seq<bool>, now: seq<bool>, ti: seq<int>, n: nat): seq<Change>
    requires n <= |was| == |now| == |ti|
  {
    if n == 0 then []
    else Changes(was, now, ti, n - 1) + if was[n - 1] != now[n - 1] then [Change(n - 1, now[n - 1], ti[n - 1])] else []
  }

  lemma UploadedNext(u: Numbered, was: seq<bool>, now: seq<bool>, ti: seq<int>, n: nat)
    requires u.list != [] && n < |was| == |now| == |ti|
    ensures UploadedAll(u, Changes(was, now, ti, n + 1))
      == UploadStep(UploadedAll(u, Changes(was, now, ti, n)), was[n], now[n], n, ti[n])
  {
    var ts, t := Changes(was, now, ti, n), Change(n, now[n], ti[n]);
    assert (ts + [t])[..|ts|] == ts && ts + [] == ts;
  }

  // ---------- the program ----------

  /** struct almCtx, as far as the lists go. */
  class Context {
    const curAlarm: array<Record>
    var curSeq: nat
    const uploadAlarm: array<Record>
    var uploadSeq: nat
    const oldAlarm: array<bool>
    const newAlarm: array<bool>

    constructor (n: nat)
      ensures Valid() && fresh(this) && fresh(curAlarm) && fresh(uploadAlarm) && fresh(oldAlarm) && fresh(newAlarm)
      ensures Current() == Blank(50) && Upload() == Blank(20)
      ensures oldAlarm[..] == newAlarm[..] == seq(n, _ => false)
    {
      curAlarm := new Record[CUR](_ => ZERO);
      uploadAlarm := new Record[UPLOAD](_ => ZERO);
      oldAlarm := new bool[n](_ => false);
      newAlarm := new bool[n](_ => false);
      curSeq, uploadSeq := 0, 0;
    }

    ghost predicate Valid()
      reads this, uploadAlarm
    {
      curAlarm.Length == CUR && uploadAlarm.Length == UPLOAD && oldAlarm.Length == newAlarm.Length
      && curAlarm != uploadAlarm && oldAlarm != newAlarm && uploadSeq < MAX_ID
      && forall j :: 0 <= j < UPLOAD ==> uploadAlarm[j].id <= MAX_ID
    }

    function Current(): Numbered
      reads this, curAlarm
    {
      Numbered(curAlarm[..], curSeq)
    }

    function Upload(): Numbered
      reads this, uploadAlarm
    {
      Numbered(uploadAlarm[..], uploadSeq)
    }

    method SetCur(inx: nat, ti: int)
      requires Valid()
      modifies this`curSeq, curAlarm
      ensures Valid() && Current() == Raised(old(Current()), inx, ti)
    {
      var i := 0;
      while i < CUR
        invariant 0 <= i <= CUR && forall j :: 0 <= j < i ==> curAlarm[j].on
        invariant Current() == old(Current())
      {
        if !curAlarm[i].on {
          assert FirstOff(curAlarm[..]) == i;
          curSeq := curSeq + 1;
          curAlarm[i] := Record(curSeq, inx, true, ti);
          if curSeq >= MAX_ID { curSeq := 0; }
          return;
        }
        i := i + 1;
      }
    }

    method DelCur(inx: nat)
      requires Valid()
      modifies curAlarm
      ensures Valid() && Current() == Cleared(old(Current()), inx)
    {
      var i := 0;
      while i < CUR
        invariant 0 <= i <= CUR && forall j :: 0 <= j < i ==> !(curAlarm[j].on && curAlarm[j].inx == inx)
        invariant Current() == old(Current())
      {
        if curAlarm[i].on && curAlarm[i].inx == inx {
          assert FirstOn(curAlarm[..], inx) == i;
          curAlarm[i] := ZERO;
          return;
        }
        i := i + 1;
      }
    }

    /** The search of set_upload_alarm_info. */
    method FindPlace() returns (place: nat)
      requires Valid()
      ensures place == Place(uploadAlarm[..])
    {
      var i, minId, minInx := 0, MAX_ID, 0;
      while i < UPLOAD
        invariant 0 <= i <= UPLOAD && forall j :: 0 <= j < i ==> uploadAlarm[j].id != 0
        invariant i == 0 ==> minInx == 0 && minId == MAX_ID
        invariant i > 0 ==> minInx == Oldest(uploadAlarm[..], i) && minId == uploadAlarm[minInx].id
      {
        if uploadAlarm[i].id == 0 {
          assert FirstFree(uploadAlarm[..]) == i;
          return i;
        }
        if minId > uploadAlarm[i].id {
          minId, minInx := uploadAlarm[i].id, i;
        }
        i := i + 1;
      }
      return minInx;
    }

    /** set_upload_alarm_info: the change is in the list in any case, and the last id asks for clearing. */
    method SetUpload(inx: nat, on: bool, ti: int) returns (full: bool)
      requires Valid()
      modifies this`uploadSeq, uploadAlarm
      ensures Valid() && full == (old(uploadSeq) + 1 >= 0xffff_ffff)
      ensures Upload() == Numbered(Recorded(old(Upload()), Change(inx, on, ti)), if full then 0 else old(uploadSeq) + 1)
    {
      var place := FindPlace();
      uploadSeq := uploadSeq + 1;
      uploadAlarm[place] := Record(uploadSeq, inx, on, ti);
      full := uploadSeq >= MAX_ID;
      if full { uploadSeq := 0; }
    }

    /**
      One alarm: a change goes to both lists, and when its ids are used up the upload list is shared and cleared. If
      sharing fails it stays, with the ids starting again.
     */
    method CompareOne(inx: nat, ti: int, shares: bool) returns (ok: bool)
      requires Valid() && inx < newAlarm.Length
      modifies this`curSeq, this`uploadSeq, curAlarm, uploadAlarm
      ensures Valid() && (ok <==> shares || oldAlarm[inx] == newAlarm[inx] || old(uploadSeq) + 1 < MAX_ID)
      ensures Current() == CurStep(old(Current()), oldAlarm[inx], newAlarm[inx], inx, ti)
      ensures Upload() == if ok then UploadStep(old(Upload()), oldAlarm[inx], newAlarm[inx], inx, ti)
        else Numbered(Recorded(old(Upload()), Change(inx, newAlarm[inx], ti)), 0)
    {
      if !oldAlarm[inx] && newAlarm[inx] {
        SetCur(inx, ti);
      } else if oldAlarm[inx] && !newAlarm[inx] {
        DelCur(inx);
      }
      if oldAlarm[inx] != newAlarm[inx] {
        var full := SetUpload(inx, newAlarm[inx], ti);
        if full {
          if !shares { return false; }
          forall j | 0 <= j < UPLOAD { uploadAlarm[j] := ZERO; }
          assert uploadAlarm[..] == seq(UPLOAD, _ => ZERO);
        }
      }
      ok := true;
    }

    /**
      CompareAlarm. The clock may fail at an alarm, before anything is recorded for it, sharing the upload list after
      that, and the log last; then the call ends there, and the old vector stays. The first n alarms are dealt with,
      and stuck tells that the one after them could not be shared.
     */
    method CompareAlarm(ti: seq<int>, clockFails: nat, shares: bool, logFails: nat)
      returns (ok: bool, ghost n: nat, ghost stuck: bool)
      requires Valid() && |ti| == newAlarm.Length
      modifies this`curSeq, this`uploadSeq, curAlarm, uploadAlarm, oldAlarm
      ensures Valid() && n <= |ti| && newAlarm[..] == old(newAlarm[..])
      ensures var was, now, cur, up := old(oldAlarm[..]), newAlarm[..], old(Current()), old(Upload());
        var before := UploadedAll(up, Changes(was, now, ti, n));
        if stuck then (!ok && !shares && Changed(was, now, n) && before.last + 1 >= MAX_ID
          && Current() == CurAfter(cur, was, now, ti, n + 1)
          && Upload() == Numbered(Recorded(before, Change(n, now[n], ti[n])), 0))
        else (Current() == CurAfter(cur, was, now, ti, n) && Upload() == before
          && (ok || Stopped(was, now, clockFails, logFails, n)))
      ensures ok ==> n == |ti| && oldAlarm[..] == newAlarm[..]
      ensures ok ==> !Changed(old(oldAlarm[..]), newAlarm[..], clockFails)
      ensures ok ==> !Changed(old(oldAlarm[..]), newAlarm[..], logFails)
      ensures !ok ==> oldAlarm[..] == old(oldAlarm[..])
    {
      n, stuck := 0, false;
      ghost var was, now, cur, up := oldAlarm[..], newAlarm[..], Current(), Upload();
      var i := 0;
      while i < newAlarm.Length
        invariant 0 <= i == n <= newAlarm.Length && Valid() && oldAlarm[..] == was && newAlarm[..] == now
        invariant Current() == CurAfter(cur, was, now, ti, n)
        invariant Upload() == UploadedAll(up, Changes(was, now, ti, n))
        invariant forall k :: 0 <= k < i && Changed(was, now, k) ==> k != clockFails && k != logFails
      {
        var changed := oldAlarm[i] != newAlarm[i];
        assert oldAlarm[i] == was[i] && newAlarm[i] == now[i];
        if changed && i == clockFails { return false, n, false; }
        UploadedNext(up, was, now, ti, n);
        var shared := CompareOne(i, ti[i], shares);
        if !shared { return false, n, true; }
        n := n + 1;
        if changed && i == logFails { return false, n, false; }
        i := i + 1;
      }
      forall j | 0 <= j < newAlarm.Length { oldAlarm[j] := newAlarm[j]; }
      ok := true;
    }
  }

  predicate Changed(was: seq<bool>, now: seq<bool>, k: nat)
    requires |was| == |now|
  {
    k < |was| && was[k] != now[k]
  }

  /** A call ended by the clock at alarm n, or by the log behind the one before. */
  predicate Stopped(was: seq<bool>, now: seq<bool>, clockFails: nat, logFails: nat, n: nat)
    requires |was| == |now|
  {
    (n == clockFails && Changed(was, now, n)) || (n > 0 && n - 1 == logFails && Changed(was, now, n - 1))
  }

  function Blank(n: nat): Numbered { Numbered(seq(n, _ => ZERO), 0) }
}
