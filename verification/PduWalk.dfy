/**
 The walk over the downlink PDU list that the UE receives from the proxy.

 The loop advances its own index inside the body: a DCI takes the PDU that follows it.  A DLSCH there
 makes a pair; anything else is logged and skipped.  A DCI with nothing after it aborts the program.
 */
module PduWalk {
  datatype Kind = DCI | DLSCH | BCH | MCH | Other

  datatype Pdu = Pdu(kind: Kind, id: int)

  /** A call of one of the three MAC handlers. */
  datatype Call = DciCall(dci: Pdu, dlsch: Pdu) | BchCall(pdu: Pdu) | MchCall(pdu: Pdu)

  /** What the walk takes from the list in one step. */
  datatype Group = Pair(dci: Pdu, next: Pdu) | Single(pdu: Pdu)
  {
    predicate Valid() {
      match this
      case Pair(dci, _) => dci.kind == DCI
      case Single(pdu) => pdu.kind != DCI
    }

    function Pdus(): seq<Pdu> {
      match this
      case Pair(dci, next) => [dci, next]
      case Single(pdu) => [pdu]
    }

    function Calls(): seq<Call> {
      match this
      case Pair(dci, next) => if next.kind == DLSCH then [DciCall(dci, next)] else []
      case Single(pdu) =>
        if pdu.kind == BCH then [BchCall(pdu)] else if pdu.kind == MCH then [MchCall(pdu)] else []
    }
  }

  function Flatten(groups: seq<Group>): seq<Pdu> {
    if groups == [] then [] else groups[0].Pdus() + Flatten(groups[1..])
  }

  function CallsOf(groups: seq<Group>): seq<Call> {
    if groups == [] then [] else groups[0].Calls() + CallsOf(groups[1..])
  }

  predicate AllValid(groups: seq<Group>) {
    forall i :: 0 <= i < |groups| ==> groups[i].Valid()
  }

  /** The groups of a list and the DCI left over at its end, if any. */
  datatype Parsed = Parsed(groups: seq<Group>, dangling: seq<Pdu>)

  function Parse(pdus: seq<Pdu>): Parsed
    decreases |pdus|
  {
    if pdus == [] then Parsed([], [])
    else if pdus[0].kind != DCI then
      var rest := Parse(pdus[1..]);
      Parsed([Single(pdus[0])] + rest.groups, rest.dangling)
    else if |pdus| == 1 then Parsed([], pdus)
    else
      var rest := Parse(pdus[2..]);
      Parsed([Pair(pdus[0], pdus[1])] + rest.groups, rest.dangling)
  }

  lemma FlattenCons(g: Group, rest: seq<Group>)
    ensures Flatten([g] + rest) == g.Pdus() + Flatten(rest)
    ensures CallsOf([g] + rest) == g.Calls() + CallsOf(rest)
  {
    assert ([g] + rest)[1..] == rest;
  }

  // ----- parsing and flattening are inverse -----

  lemma ParseCons(g: Group, tail: seq<Pdu>)
    requires g.Valid()
    ensures Parse(g.Pdus() + tail) == Parsed([g] + Parse(tail).groups, Parse(tail).dangling)
  {
    var all := g.Pdus() + tail;
    match g
    case Pair(_, _) => assert all[2..] == tail;
    case Single(_) => assert all[1..] == tail;
  }

  /** A DCI alone at the end of the list. */
  predicate Stuck(pdus: seq<Pdu>) {
    |pdus| == 1 && pdus[0].kind == DCI
  }

  function First(pdus: seq<Pdu>): Group
    requires pdus != [] && !Stuck(pdus)
  {
    if pdus[0].kind == DCI then Pair(pdus[0], pdus[1]) else Single(pdus[0])
  }

  function AfterFirst(pdus: seq<Pdu>): seq<Pdu>
    requires pdus != [] && !Stuck(pdus)
  {
    pdus[|First(pdus).Pdus()|..]
  }

  lemma Uncons(pdus: seq<Pdu>)
    requires pdus != [] && !Stuck(pdus)
    ensures First(pdus).Valid() && pdus == First(pdus).Pdus() + AfterFirst(pdus)
  {
  }

  /** Every group starts with a DCI or is a single other PDU, and at most one DCI is left over. */
  lemma {:induction false} ParseValid(pdus: seq<Pdu>)
    ensures AllValid(Parse(pdus).groups)
    ensures Parse(pdus).dangling == [] || Stuck(Parse(pdus).dangling)
    decreases |pdus|
  {
    if pdus == [] || Stuck(pdus) {
    } else {
      Uncons(pdus);
      ParseValid(AfterFirst(pdus));
      ParseCons(First(pdus), AfterFirst(pdus));
    }
  }

  /** Every PDU of the list ends up in exactly one group, in order, or is the DCI left over. */
  lemma {:induction false} ParseKeepsAll(pdus: seq<Pdu>)
    ensures Flatten(Parse(pdus).groups) + Parse(pdus).dangling == pdus
    ensures AllValid(Parse(pdus).groups)
    ensures Parse(pdus).dangling == [] || Stuck(Parse(pdus).dangling)
    decreases |pdus|
  {
    ParseValid(pdus);
    if pdus == [] || Stuck(pdus) {
    } else {
      var g, tail := First(pdus), AfterFirst(pdus);
      Uncons(pdus);
      ParseKeepsAll(tail);
      ParseCons(g, tail);
      FlattenCons(g, Parse(tail).groups);
      Reassociate(g.Pdus(), Flatten(Parse(tail).groups), Parse(tail).dangling);
    }
  }

  lemma Reassociate(a: seq<Pdu>, b: seq<Pdu>, c: seq<Pdu>)
    ensures (a + b) + c == a + (b + c)
  {
  }

  /** There is no other way to group a list: whatever groups it was made of are found again. */
  lemma {:induction false} ParseFlatten(groups: seq<Group>)
    requires AllValid(groups)
    ensures Parse(Flatten(groups)) == Parsed(groups, [])
    decreases |groups|
  {
    if groups == [] {
    } else {
      ParseFlatten(groups[1..]);
      ParseCons(groups[0], Flatten(groups[1..]));
      assert groups == [groups[0]] + groups[1..];
    }
  }

  // ----- when the walk aborts -----

  predicate AllDci(pdus: seq<Pdu>) {
    forall i :: 0 <= i < |pdus| ==> pdus[i].kind == DCI
  }

  /** The length of the run of DCI PDUs at the end of the list. */
  function TrailingDci(pdus: seq<Pdu>): nat {
    if pdus == [] || pdus[|pdus| - 1].kind != DCI then 0 else 1 + TrailingDci(pdus[..|pdus| - 1])
  }

  lemma {:induction false} TrailingCons(p: Pdu, rest: seq<Pdu>)
    ensures TrailingDci(rest) <= |rest| && (TrailingDci(rest) == |rest| <==> AllDci(rest))
    ensures TrailingDci([p] + rest) ==
            if p.kind == DCI && AllDci(rest) then |rest| + 1 else TrailingDci(rest)
    decreases |rest|
  {
    var all := [p] + rest;
    if rest == [] {
      assert all[..0] == [];
    } else {
      var n := |rest| - 1;
      TrailingCons(p, rest[..n]);
      assert all[..n + 1] == [p] + rest[..n];
      assert rest == rest[..n] + [rest[n]];
    }
  }

  /** A group in front does not change the parity of the trailing run. */
  lemma TrailingGroup(g: Group, tail: seq<Pdu>)
    requires g.Valid()
    ensures TrailingDci(g.Pdus() + tail) % 2 == TrailingDci(tail) % 2
  {
    match g
    case Pair(dci, next) =>
      TrailingCons(next, tail);
      TrailingCons(dci, [next] + tail);
      assert g.Pdus() + tail == [dci] + ([next] + tail);
    case Single(pdu) =>
      TrailingCons(pdu, tail);
  }

  /** The walk aborts if and only if the list ends in an odd number of DCI PDUs. */
  lemma {:induction false} AbortsIffOddTail(pdus: seq<Pdu>)
    ensures Parse(pdus).dangling != [] <==> TrailingDci(pdus) % 2 == 1
    decreases |pdus|
  {
    if Stuck(pdus) {
      assert pdus[..0] == [];
    } else if pdus != [] {
      Uncons(pdus);
      AbortsIffOddTail(AfterFirst(pdus));
      ParseCons(First(pdus), AfterFirst(pdus));
      TrailingGroup(First(pdus), AfterFirst(pdus));
    }
  }

  // ----- which PDU goes where -----

  /** The PDU at index `i` follows a DCI that takes it: an odd number of DCI PDUs stands directly before it. */
  predicate Taken(pdus: seq<Pdu>, i: nat)
    requires i < |pdus|
  {
    TrailingDci(pdus[..i]) % 2 == 1
  }

  /** The handler call that the PDU at index `i` completes, read off its place in the list. */
  function CallAt(pdus: seq<Pdu>, i: nat): seq<Call>
    requires i < |pdus|
  {
    var p := pdus[i];
    if Taken(pdus, i) then if p.kind == DLSCH && i > 0 then [DciCall(pdus[i - 1], p)] else []
    else if p.kind == BCH then [BchCall(p)]
    else if p.kind == MCH then [MchCall(p)]
    else []
  }

  function CallsUpTo(pdus: seq<Pdu>, n: nat): seq<Call>
    requires n <= |pdus|
  {
    if n == 0 then [] else CallsUpTo(pdus, n - 1) + CallAt(pdus, n - 1)
  }

  /** The handler calls of the whole list, place by place. */
  function PlaceCalls(pdus: seq<Pdu>): seq<Call> {
    CallsUpTo(pdus, |pdus|)
  }

  lemma {:induction false} GroupsSnoc(groups: seq<Group>, g: Group)
    ensures CallsOf(groups + [g]) == CallsOf(groups) + g.Calls()
    ensures Flatten(groups + [g]) == Flatten(groups) + g.Pdus()
    decreases |groups|
  {
    if groups == [] {
      assert [] + [g] == [g];
      FlattenCons(g, []);
    } else {
      var rest := groups[1..];
      assert groups + [g] == [groups[0]] + (rest + [g]);
      assert groups == [groups[0]] + rest;
      GroupsSnoc(rest, g);
      FlattenCons(groups[0], rest + [g]);
      FlattenCons(groups[0], rest);
    }
  }

  lemma {:induction false} SnocPair(pdus: seq<Pdu>, p: Pdu)
    requires Parse(pdus).dangling != []
    ensures Parse(pdus + [p]) == Parsed(Parse(pdus).groups + [Pair(Parse(pdus).dangling[0], p)], [])
  {
    var groups, d := Parse(pdus).groups, Parse(pdus).dangling;
    ParseKeepsAll(pdus);
    assert d == [d[0]];
    Reassociate(Flatten(groups), d, [p]);
    assert d + [p] == Pair(d[0], p).Pdus();
    ExtendedParse(groups, Pair(d[0], p));
  }

  lemma {:induction false} SnocSingle(pdus: seq<Pdu>, p: Pdu)
    requires Parse(pdus).dangling == []
    ensures Parse(pdus + [p]) ==
            if p.kind == DCI then Parsed(Parse(pdus).groups, [p]) else Parsed(Parse(pdus).groups + [Single(p)], [])
  {
    var groups := Parse(pdus).groups;
    ParseKeepsAll(pdus);
    assert Flatten(groups) == pdus;
    if p.kind == DCI {
      ParseThenDci(groups, p);
    } else {
      ExtendedParse(groups, Single(p));
    }
  }

  lemma ExtendedParse(groups: seq<Group>, g: Group)
    requires AllValid(groups) && g.Valid()
    ensures Parse(Flatten(groups) + g.Pdus()) == Parsed(groups + [g], [])
  {
    GroupsSnoc(groups, g);
    ParseFlatten(groups + [g]);
  }

  lemma {:induction false} ParseThenDci(groups: seq<Group>, p: Pdu)
    requires AllValid(groups) && p.kind == DCI
    ensures Parse(Flatten(groups) + [p]) == Parsed(groups, [p])
    decreases |groups|
  {
    if groups == [] {
      assert Flatten(groups) + [p] == [p];
    } else {
      var rest := groups[1..];
      ParseThenDci(rest, p);
      ParseCons(groups[0], Flatten(rest) + [p]);
      assert Flatten(groups) + [p] == groups[0].Pdus() + (Flatten(rest) + [p]);
      assert groups == [groups[0]] + rest;
    }
  }

  /** The DCI left over is the last PDU of the list. */
  lemma DanglingIsLast(pdus: seq<Pdu>)
    requires Parse(pdus).dangling != []
    ensures pdus != [] && Parse(pdus).dangling == [pdus[|pdus| - 1]]
  {
    ParseKeepsAll(pdus);
  }

  lemma CallAtIs(pdus: seq<Pdu>, n: nat)
    requires n < |pdus|
    ensures CallsOf(Parse(pdus[..n + 1]).groups) == CallsOf(Parse(pdus[..n]).groups) + CallAt(pdus, n)
  {
    var before, p, was := pdus[..n], pdus[n], Parse(pdus[..n]);
    assert pdus[..n + 1] == before + [p];
    AbortsIffOddTail(before);
    if was.dangling != [] {
      SnocPair(before, p);
      DanglingIsLast(before);
      GroupsSnoc(was.groups, Pair(was.dangling[0], p));
    } else {
      SnocSingle(before, p);
      if p.kind != DCI {
        GroupsSnoc(was.groups, Single(p));
      }
    }
  }

  /**
   The handler calls, place by place: a PDU after an odd number of DCI PDUs is taken by the last of them and, if it
   is a DLSCH, handled together with it; any other BCH or MCH goes to its own handler; nothing else is handled.
   */
  lemma {:induction false} CallsByPlace(pdus: seq<Pdu>, n: nat)
    requires n <= |pdus|
    ensures CallsOf(Parse(pdus[..n]).groups) == CallsUpTo(pdus, n)
  {
    if n == 0 {
    } else {
      CallsByPlace(pdus, n - 1);
      CallAtIs(pdus, n - 1);
    }
  }

  // ----- the loop -----

  /** At index `i` the calls made and the calls still to come are those of the whole list. */
  ghost predicate Progress(pdus: seq<Pdu>, i: nat, calls: seq<Call>)
    requires i <= |pdus|
  {
    && calls + CallsOf(Parse(pdus[i..]).groups) == CallsOf(Parse(pdus).groups)
    && Parse(pdus[i..]).dangling == Parse(pdus).dangling
  }

  lemma ProgressStart(pdus: seq<Pdu>)
    ensures Progress(pdus, 0, [])
  {
    assert pdus[0..] == pdus;
  }

  lemma ProgressStep(pdus: seq<Pdu>, i: nat, j: nat, g: Group, calls: seq<Call>)
    requires i <= j <= |pdus| && g.Valid() && pdus[i..j] == g.Pdus() && Progress(pdus, i, calls)
    ensures Progress(pdus, j, calls + g.Calls())
  {
    var rest := Parse(pdus[j..]).groups;
    assert pdus[i..] == g.Pdus() + pdus[j..];
    ParseCons(g, pdus[j..]);
    FlattenCons(g, rest);
    assert calls + (g.Calls() + CallsOf(rest)) == (calls + g.Calls()) + CallsOf(rest);
  }

  lemma ProgressEnd(pdus: seq<Pdu>, i: nat, calls: seq<Call>)
    requires i <= |pdus| && Progress(pdus, i, calls) && (i == |pdus| || Stuck(pdus[i..]))
    ensures calls == CallsOf(Parse(pdus).groups) == PlaceCalls(pdus)
    ensures i == |pdus| <==> TrailingDci(pdus) % 2 == 0
  {
    AbortsIffOddTail(pdus);
    CallsByPlace(pdus, |pdus|);
    assert pdus[..|pdus|] == pdus;
  }

  /** The handler calls made, and whether the walk ended in the abort. */
  method Walk(pdus: seq<Pdu>) returns (calls: seq<Call>, aborted: bool)
    ensures calls == CallsOf(Parse(pdus).groups)
    ensures calls == PlaceCalls(pdus)
    ensures aborted <==> TrailingDci(pdus) % 2 == 1
  {
    calls := [];
    ProgressStart(pdus);
    var i := 0;
    while i < |pdus|
      invariant 0 <= i <= |pdus| && Progress(pdus, i, calls)
    {
      var pdu := pdus[i];
      if pdu.kind == DCI {
        i := i + 1;
        if i >= |pdus| {
          ProgressEnd(pdus, i - 1, calls);
          return calls, true;
        }
        var next := pdus[i];
        ProgressStep(pdus, i - 1, i + 1, Pair(pdu, next), calls);
        if next.kind == DLSCH {
          calls := calls + [DciCall(pdu, next)];
        } else {
          assert calls + [] == calls;
        }
      } else {
        ProgressStep(pdus, i, i + 1, Single(pdu), calls);
        if pdu.kind == BCH {
          calls := calls + [BchCall(pdu)];
        } else if pdu.kind == MCH {
          calls := calls + [MchCall(pdu)];
        } else {
          assert calls + [] == calls;
        }
      }
      i := i + 1;
    }
    ProgressEnd(pdus, i, calls);
    aborted := false;
  }
}
