/** The mutable side of the RPC layer: a request batch with its per-machine index. */
module Polling {
  import opened Messages
  import opened Batches

  const MAX_MACHINES: nat := 126

  /** A request of the batch: its place in a coalesced message, and its response buffer. */
  datatype Req = Req(place: Place, slot: Slot)

  function PlacesOf(rs: seq<Req>): (ps: seq<Place>)
    ensures |ps| == |rs| && forall i :: 0 <= i < |rs| ==> ps[i] == rs[i].place
  {
    seq(|rs|, i requires 0 <= i < |rs| => rs[i].place)
  }

  function SlotsOf(rs: seq<Req>): (ss: seq<Slot>)
    ensures |ss| == |rs| && forall i :: 0 <= i < |rs| ==> ss[i] == rs[i].slot
  {
    seq(|rs|, i requires 0 <= i < |rs| => rs[i].slot)
  }

  /** The index entry for a machine: its coalesced message, or -1. */
  function IndexFor(cmsgs: seq<Cmsg>, mn: nat): int {
    var k := Find(cmsgs, mn);
    if k < |cmsgs| then k else -1
  }

  class ReqBatch {
    var reqArr: array<Req>
    var numReqs: nat
    var numReqsDone: nat
    var numUniqMn: nat
    var cmsgForMc: array<int>
    var cmsgArr: array<Cmsg>

    ghost function Value(): Batch
      reads this, reqArr, cmsgArr
      requires numReqs <= reqArr.Length && numUniqMn <= cmsgArr.Length
    {
      Batch(cmsgArr[..numUniqMn], PlacesOf(reqArr[..numReqs]), SlotsOf(reqArr[..numReqs]), numReqsDone)
    }

    ghost predicate Shape()
      reads this
    {
      && reqArr.Length == cmsgArr.Length == MAX_MSG_CORO && cmsgForMc.Length == MAX_MACHINES
      && numUniqMn <= numReqs <= MAX_MSG_CORO
    }

    /** The index agrees with the messages, and unused messages are empty. */
    ghost predicate Valid()
      reads this, reqArr, cmsgArr, cmsgForMc
    {
      && Shape()
      && (forall k :: 0 <= k < numUniqMn ==> cmsgArr[k].mn < MAX_MACHINES)
      && (forall k :: numUniqMn <= k < MAX_MSG_CORO ==> cmsgArr[k].entries == [])
      && (forall mn :: 0 <= mn < MAX_MACHINES ==> cmsgForMc[mn] == IndexFor(cmsgArr[..numUniqMn], mn))
    }

    constructor ()
      ensures Valid() && Value() == EMPTY
      ensures fresh(reqArr) && fresh(cmsgForMc) && fresh(cmsgArr)
    {
      reqArr := new Req[MAX_MSG_CORO](_ => Req(Place(0, 0), Empty));
      cmsgArr := new Cmsg[MAX_MSG_CORO](_ => Cmsg(0, []));
      cmsgForMc := new int[MAX_MACHINES](_ => -1);
      numReqs, numReqsDone, numUniqMn := 0, 0, 0;
    }

    /** The first half of start_new_req: the machine's message from the index, or a fresh one. */
    method ChooseCmsg(mn: nat) returns (k: nat)
      requires Valid() && numUniqMn < MAX_MSG_CORO && mn < MAX_MACHINES
      modifies this`numUniqMn, cmsgArr, cmsgForMc
      ensures k == Find(old(cmsgArr[..numUniqMn]), mn) < MAX_MSG_CORO
      ensures numUniqMn == (if k < old(numUniqMn) then old(numUniqMn) else k + 1)
      ensures cmsgArr[..] == old(cmsgArr[..])[k := Cmsg(mn, old(cmsgArr[k]).entries)]
      ensures k == old(numUniqMn) ==> cmsgArr[k].entries == []
      ensures cmsgForMc[..] == old(cmsgForMc[..])[mn := k]
    {
      if cmsgForMc[mn] >= 0 {
        k := cmsgForMc[mn];
        assert cmsgArr[k].mn == mn;
      } else {
        k := numUniqMn;
        cmsgForMc[mn] := k;
        numUniqMn := numUniqMn + 1;
        cmsgArr[k] := cmsgArr[k].(mn := mn);
      }
    }

    /** start_new_req followed by freeze: what the index finds is what a search would find. */
    method StartNewReq(mn: nat, typ: byte, payload: seq<byte>)
      requires Valid() && numReqs < MAX_MSG_CORO && mn < MAX_MACHINES
      modifies this, reqArr, cmsgArr, cmsgForMc
      ensures Valid() && reqArr == old(reqArr) && cmsgArr == old(cmsgArr) && cmsgForMc == old(cmsgForMc)
      ensures Value() == Add(old(Value()), mn, typ, payload)
    {
      hide Find, Add;
      ghost var before := Value();
      AddCmsgs(before, mn, typ, payload);
      IndexAfterAdd(before, mn, typ, payload);
      var k := ChooseCmsg(mn);
      reqArr[numReqs] := Req(Place(k, |cmsgArr[k].entries|), Empty);
      cmsgArr[k] := cmsgArr[k].(entries := cmsgArr[k].entries + [Entry(typ, numReqs, payload)]);
      numReqs := numReqs + 1;
      ghost var e := Entry(typ, numReqs - 1, payload);
      ghost var was := if k < old(numUniqMn) then old(cmsgArr[k]).entries else [];
      assert cmsgArr[..] == old(cmsgArr[..])[k := Cmsg(mn, was + [e])];
      assert cmsgArr[..numUniqMn] == Add(before, mn, typ, payload).cmsgs by {
        if k < old(numUniqMn) {
          assert before.cmsgs[k].mn == mn;
          assert cmsgArr[..numUniqMn] == before.cmsgs[k := Cmsg(mn, before.cmsgs[k].entries + [e])];
        } else {
          assert cmsgArr[k] == Cmsg(mn, [e]) && numUniqMn == |before.cmsgs| + 1;
          assert cmsgArr[..numUniqMn] == before.cmsgs + [Cmsg(mn, [e])];
        }
      }
      hide IndexFor;
      assert reqArr[..numReqs] == old(reqArr[..numReqs]) + [reqArr[numReqs - 1]];
      assert Value() == Add(before, mn, typ, payload);
    }

    /** clear(): only the used index entries are reset, and that resets the whole index. */
    method Clear()
      requires Valid()
      modifies this, cmsgArr, cmsgForMc
      ensures Valid() && reqArr == old(reqArr) && cmsgArr == old(cmsgArr) && cmsgForMc == old(cmsgForMc)
      ensures Value() == EMPTY
    {
      ghost var cmsgs := cmsgArr[..numUniqMn];
      numReqs := 0;
      numReqsDone := 0;
      for i := 0 to numUniqMn
        invariant numUniqMn == old(numUniqMn) && numReqs == numReqsDone == 0
        invariant reqArr == old(reqArr) && cmsgArr == old(cmsgArr) && cmsgForMc == old(cmsgForMc)
        invariant forall k :: i <= k < numUniqMn ==> cmsgArr[k] == cmsgs[k]
        invariant forall k :: 0 <= k < MAX_MSG_CORO && (k < i || numUniqMn <= k) ==> cmsgArr[k].entries == []
        invariant forall mn :: 0 <= mn < MAX_MACHINES ==>
                    cmsgForMc[mn] == -1 || (cmsgForMc[mn] == IndexFor(cmsgs, mn) && cmsgForMc[mn] >= i)
      {
        cmsgForMc[cmsgArr[i].mn] := -1;
        cmsgArr[i] := Cmsg(0, []);
      }
      numUniqMn := 0;
    }
  }

  lemma {:induction false} FindAppend(cmsgs: seq<Cmsg>, c: Cmsg, mn: nat)
    ensures Find(cmsgs + [c], mn) ==
            (if Find(cmsgs, mn) < |cmsgs| then Find(cmsgs, mn) else if c.mn == mn then |cmsgs| else |cmsgs| + 1)
  {
    hide Find;
    var j, more := Find(cmsgs, mn), cmsgs + [c];
    assert more[|cmsgs|] == c;
    if j < |cmsgs| { assert more[j].mn == mn; }
  }

  lemma FindSameMachines(a: seq<Cmsg>, b: seq<Cmsg>, mn: nat)
    requires |a| == |b| && forall i :: 0 <= i < |a| ==> a[i].mn == b[i].mn
    ensures Find(a, mn) == Find(b, mn)
  {
  }

  /** What adding a request does, by cases. */
  lemma AddCmsgs(b: Batch, mn: nat, typ: byte, payload: seq<byte>)
    requires |b.slots| < 256
    ensures var c, k, e := Add(b, mn, typ, payload), Find(b.cmsgs, mn), Entry(typ, |b.slots|, payload);
            && (k < |b.cmsgs| ==>
                  && c.cmsgs == b.cmsgs[k := b.cmsgs[k].(entries := b.cmsgs[k].entries + [e])]
                  && c.places == b.places + [Place(k, |b.cmsgs[k].entries|)])
            && (k == |b.cmsgs| ==> c.cmsgs == b.cmsgs + [Cmsg(mn, [e])] && c.places == b.places + [Place(k, 0)])
            && c.slots == b.slots + [Empty] && c.done == b.done
  {
  }

  lemma IndexAfterAdd(b: Batch, mn: nat, typ: byte, payload: seq<byte>)
    requires |b.slots| < 256
    ensures forall m: nat :: IndexFor(Add(b, mn, typ, payload).cmsgs, m) ==
              (if m == mn && Find(b.cmsgs, mn) == |b.cmsgs| then |b.cmsgs| else IndexFor(b.cmsgs, m))
  {
    AddCmsgs(b, mn, typ, payload);
    var cmsgs, cmsgs' := b.cmsgs, Add(b, mn, typ, payload).cmsgs;
    hide Find, Add;
    forall m: nat ensures IndexFor(cmsgs', m) ==
                          (if m == mn && Find(cmsgs, mn) == |cmsgs| then |cmsgs| else IndexFor(cmsgs, m))
    {
      if Find(cmsgs, mn) < |cmsgs| {
        FindSameMachines(cmsgs, cmsgs', m);
      } else {
        FindAppend(cmsgs, cmsgs'[|cmsgs|], m);
      }
    }
  }
}
