/** Any sequence of presented packets: order, replay and idleness. */
module VerifierRuns {
  import opened Bytes
  import opened Wrappers
  import opened Signatures

  datatype Presented = Presented(table: Table, data: bytes, checkedAt: nat, doneAt: nat)

  datatype Accepted = Accepted(message: bytes, checkedAt: nat, doneAt: nat)

  datatype RunResult = RunResult(accepted: seq<Accepted>, verifier: Verifier)

  function Present(v: Verifier, ps: seq<Presented>): RunResult
    decreases |ps|
  {
    if ps == [] then RunResult([], v)
    else
      var p := ps[0];
      var verdict := VerifyPacket(v, p.table, p.data, p.checkedAt, p.doneAt);
      var rest := Present(verdict.verifier, ps[1..]);
      match verdict.message
      case None => rest
      case Some(msg) => rest.(accepted := [Accepted(msg, p.checkedAt, p.doneAt)] + rest.accepted)
  }

  /** Every triple of `key` in the table is over the counter and payload of one of the
      messages its holder signed. */
  ghost predicate OnlySigned(table: Table, key: Bytes32, signed: seq<bytes>)
    requires |signed| < 0x1_0000_0000_0000_0000
  {
    forall t :: t in table && t.key == Key(Ed25519, key) ==>
      exists i: u64 :: i < |signed| && t.message == PacketSignatureInput(i, signed[i])
  }

  function Messages(accepted: seq<Accepted>): (r: seq<bytes>)
    ensures |r| == |accepted|
  {
    if accepted == [] then [] else [accepted[0].message] + Messages(accepted[1..])
  }

  lemma VerifyTakesNext(v: Verifier, p: Presented, signed: seq<bytes>)
    requires |signed| < 0x1_0000_0000_0000_0000 && v.counter <= |signed|
    requires OnlySigned(p.table, v.publicKey, signed)
    ensures var verdict := VerifyPacket(v, p.table, p.data, p.checkedAt, p.doneAt);
            && (verdict.message.None? ==> verdict.verifier == v)
            && (verdict.message.Some? ==>
                  && v.counter < |signed| && verdict.message.value == signed[v.counter]
                  && verdict.verifier == Verifier(v.publicKey, v.counter + 1, p.doneAt)
                  && Elapsed(v.lastSuccess, p.checkedAt) <= MAX_CONNECTION_IDLE)
  {
    hide NextCounter, PacketSignatureInput, Elapsed;
    var verdict := VerifyPacket(v, p.table, p.data, p.checkedAt, p.doneAt);
    if verdict.message.Some? {
      var t := Triple(Key(Ed25519, v.publicKey), PacketSignatureInput(v.counter, verdict.message.value),
                      p.data[..ED25519_SIGNATURE_LEN]);
      assert t in p.table;
      var i: u64 :| i < |signed| && t.message == PacketSignatureInput(i, signed[i]);
      PacketSignatureInputInjective(v.counter, verdict.message.value, i, signed[i]);
      CounterMovesOn(v.counter, |signed|);
    }
  }

  lemma CounterMovesOn(counter: u64, bound: nat)
    requires counter < bound < 0x1_0000_0000_0000_0000
    ensures NextCounter(counter) == counter + 1
  {
  }

  /** Whatever is presented, in whatever order and however often: what is accepted is the
      signer's messages from the verifier's counter on, in order, with no gap and no
      repeat, and the counter says how many. */
  lemma {:induction false} AcceptedInOrder(v: Verifier, ps: seq<Presented>, signed: seq<bytes>)
    requires |signed| < 0x1_0000_0000_0000_0000 && v.counter <= |signed|
    requires forall p :: p in ps ==> OnlySigned(p.table, v.publicKey, signed)
    ensures var r := Present(v, ps);
            && r.verifier.publicKey == v.publicKey
            && r.verifier.counter == v.counter + |r.accepted| <= |signed|
            && Messages(r.accepted) == signed[v.counter..r.verifier.counter]
    decreases |ps|
  {
    hide VerifyPacket;
    if ps != [] {
      var p := ps[0];
      var verdict := VerifyPacket(v, p.table, p.data, p.checkedAt, p.doneAt);
      VerifyTakesNext(v, p, signed);
      AcceptedInOrder(verdict.verifier, ps[1..], signed);
      var rest := Present(verdict.verifier, ps[1..]);
      if verdict.message.Some? {
        var r := Present(v, ps);
        assert r.accepted[1..] == rest.accepted;
        assert signed[v.counter..r.verifier.counter]
            == [signed[v.counter]] + signed[v.counter + 1..r.verifier.counter];
      }
    }
  }

  /** The clock never goes back. */
  ghost predicate Monotone(start: nat, ps: seq<Presented>)
    decreases |ps|
  {
    ps == [] || (start <= ps[0].checkedAt <= ps[0].doneAt && Monotone(ps[0].doneAt, ps[1..]))
  }

  /** From each acceptance to the check of the next, at most `MAX_CONNECTION_IDLE`. */
  ghost predicate GapsAreShort(since: nat, accepted: seq<Accepted>)
    decreases |accepted|
  {
    accepted == [] ||
    (accepted[0].checkedAt <= since + MAX_CONNECTION_IDLE &&
     GapsAreShort(accepted[0].doneAt, accepted[1..]))
  }

  lemma {:induction false} IdleTimeIsBounded(v: Verifier, ps: seq<Presented>)
    ensures GapsAreShort(v.lastSuccess, Present(v, ps).accepted)
    decreases |ps|
  {
    if ps != [] {
      var p := ps[0];
      var verdict := VerifyPacket(v, p.table, p.data, p.checkedAt, p.doneAt);
      IdleTimeIsBounded(verdict.verifier, ps[1..]);
      if verdict.message.Some? {
        var rest := Present(verdict.verifier, ps[1..]);
        assert Present(v, ps).accepted[1..] == rest.accepted;
      }
    }
  }

  /** Once refused for idleness, refused for ever: the state does not change again. */
  lemma {:induction false} IdleIsForever(v: Verifier, now: nat, ps: seq<Presented>)
    requires Elapsed(v.lastSuccess, now) > MAX_CONNECTION_IDLE && Monotone(now, ps)
    ensures Present(v, ps) == RunResult([], v)
    decreases |ps|
  {
    if ps != [] {
      IdleIsForever(v, ps[0].doneAt, ps[1..]);
    }
  }
}
