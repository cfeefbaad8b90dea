/**
 The batched exchange with the kernel: requests go out in one message, and replies come back as
 datagrams of messages, in any order and mixed with others. A datagram is a list of messages, or
 reading or parsing it failed; when the stream runs out, reading times out.
 */
module Exchange {
  import opened Options
  import opened Counting

  const NLMSG_ERROR := 2
  const INT_MIN := -0x8000_0000

  type Errno = int
  /** code is the first four bytes of the payload as a signed number; it means nothing if len < 4. */
  datatype Msg = Msg(seqNo: nat, kind: nat, len: nat, code: int)
  datatype Datagram = Msgs(msgs: seq<Msg>) | Failed

  /** 0 is success; the sign change wraps at 32 bits. */
  function Answer(code: int): Errno {
    if code == INT_MIN then INT_MIN else -code
  }

  predicate Answers(m: Msg, seqNo: nat) {
    m.seqNo == seqNo && m.kind == NLMSG_ERROR && m.len >= 4
  }

  /** The errno of the first valid reply to a request. */
  function FirstAnswer(msgs: seq<Msg>, seqNo: nat): Option<Errno> {
    if msgs == [] then None
    else if Answers(msgs[0], seqNo) then Some(Answer(msgs[0].code))
    else FirstAnswer(msgs[1..], seqNo)
  }

  function Flat(stream: seq<Datagram>): seq<Msg> {
    if stream == [] then []
    else
      var n := |stream| - 1;
      Flat(stream[..n]) + if stream[n].Msgs? then stream[n].msgs else []
  }

  /** Every request has a valid reply among the messages. */
  predicate AllAnswered(reqs: seq<nat>, msgs: seq<Msg>) {
    forall i | 0 <= i < |reqs| :: FirstAnswer(msgs, reqs[i]).Some?
  }

  /** No prefix of fewer than n datagrams answers every request. */
  predicate NotBefore(reqs: seq<nat>, stream: seq<Datagram>, n: nat)
    requires n <= |stream|
  {
    forall k | 0 <= k < n :: !AllAnswered(reqs, Flat(stream[..k]))
  }

  predicate NoFailure(stream: seq<Datagram>) {
    forall k | 0 <= k < |stream| :: stream[k].Msgs?
  }

  lemma {:induction false} FirstAnswerAfter(msgs: seq<Msg>, m: Msg, seqNo: nat)
    ensures FirstAnswer(msgs + [m], seqNo)
         == if FirstAnswer(msgs, seqNo).Some? then FirstAnswer(msgs, seqNo)
            else if Answers(m, seqNo) then Some(Answer(m.code)) else None
  {
    if msgs == [] {
      assert FirstAnswer([m][1..], seqNo) == None;
    } else {
      FirstAnswerAfter(msgs[1..], m, seqNo);
      assert (msgs + [m])[1..] == msgs[1..] + [m];
    }
  }

  lemma {:induction false} FirstAnswerStays(msgs: seq<Msg>, more: seq<Msg>, seqNo: nat)
    requires FirstAnswer(msgs, seqNo).Some?
    ensures FirstAnswer(msgs + more, seqNo) == FirstAnswer(msgs, seqNo)
  {
    if !Answers(msgs[0], seqNo) {
      FirstAnswerStays(msgs[1..], more, seqNo);
    }
    assert (msgs + more)[1..] == msgs[1..] + more;
  }

  /** What the loop knows after the messages so far: index holds exactly the unanswered requests. */
  ghost predicate Tracks(reqs: seq<nat>, msgs: seq<Msg>, index: map<nat, nat>, pending: int, results: seq<Errno>) {
    && InRange(reqs, index, results)
    && (forall s :: s in index <==> s in reqs && FirstAnswer(msgs, s).None?)
    && (AllDistinct(reqs) ==> pending == |index| && ResultsAre(reqs, msgs, results))
    && (!AllDistinct(reqs) ==> pending > |index|)
  }

  ghost predicate InRange(reqs: seq<nat>, index: map<nat, nat>, results: seq<Errno>) {
    |results| == |reqs| && forall s | s in index :: index[s] < |reqs| && reqs[index[s]] == s
  }

  /** Each result is its request's first answer, or 0 so far. */
  ghost predicate ResultsAre(reqs: seq<nat>, msgs: seq<Msg>, results: seq<Errno>)
    requires |results| == |reqs|
  {
    forall i | 0 <= i < |reqs| ::
      results[i] == if FirstAnswer(msgs, reqs[i]).Some? then FirstAnswer(msgs, reqs[i]).value else 0
  }

  lemma SkipTracks(reqs: seq<nat>, msgs: seq<Msg>, index: map<nat, nat>, pending: int, results: seq<Errno>, m: Msg)
    requires Tracks(reqs, msgs, index, pending, results) && !(m.seqNo in index && Answers(m, m.seqNo))
    ensures Tracks(reqs, msgs + [m], index, pending, results)
  {
    forall s | s in reqs ensures FirstAnswer(msgs + [m], s) == FirstAnswer(msgs, s) {
      FirstAnswerAfter(msgs, m, s);
    }
  }

  lemma NoteTracks(reqs: seq<nat>, msgs: seq<Msg>, index: map<nat, nat>, pending: int, results: seq<Errno>, m: Msg)
    requires Tracks(reqs, msgs, index, pending, results) && m.seqNo in index && Answers(m, m.seqNo)
    ensures Tracks(reqs, msgs + [m], index - {m.seqNo}, pending - 1, results[index[m.seqNo] := Answer(m.code)])
  {
    var s0, i0 := m.seqNo, index[m.seqNo];
    forall s | s in reqs
      ensures FirstAnswer(msgs + [m], s) == if s == s0 then Some(Answer(m.code)) else FirstAnswer(msgs, s)
    {
      FirstAnswerAfter(msgs, m, s);
    }
    assert (index - {s0}).Keys == index.Keys - {s0};
    assert |index - {s0}| == |index| - 1;
    if AllDistinct(reqs) {
      forall i | 0 <= i < |reqs| ensures i == i0 <==> reqs[i] == s0 {}
    }
  }

  lemma ElementsSize(xs: seq<nat>)
    ensures |Elements(xs)| <= |xs|
    ensures |Elements(xs)| == |xs| <==> AllDistinct(xs)
  {
    ElementsAtMost(xs);
    if AllDistinct(xs) {
      DistinctSize(xs);
    } else {
      var i, j :| 0 <= i < j < |xs| && xs[i] == xs[j];
      RepeatedIsFewer(xs, i, j);
    }
  }

  lemma TracksAtFirst(reqs: seq<nat>, index: map<nat, nat>, out: seq<Errno>)
    requires index.Keys == Elements(reqs) && forall s | s in index :: index[s] < |reqs| && reqs[index[s]] == s
    requires |out| == |reqs| && forall i | 0 <= i < |out| :: out[i] == 0
    ensures Tracks(reqs, [], index, |reqs|, out)
  {
    ElementsSize(reqs);
    assert |index| == |index.Keys|;
  }

  lemma PendingMeansUnanswered(reqs: seq<nat>, msgs: seq<Msg>, index: map<nat, nat>, pending: int, results: seq<Errno>)
    requires Tracks(reqs, msgs, index, pending, results) && AllDistinct(reqs)
    ensures pending > 0 <==> !AllAnswered(reqs, msgs)
  {
    if pending > 0 {
      assert index.Keys != {} by {
        assert |index| == |index.Keys|;
      }
      var s :| s in index;
    } else {
      assert index == map[];
      forall i | 0 <= i < |reqs| ensures FirstAnswer(msgs, reqs[i]).Some? {
        assert reqs[i] in reqs && reqs[i] !in index;
      }
    }
  }

  /** Where the outer loop stands after read datagrams. */
  ghost predicate Going(reqs: seq<nat>, stream: seq<Datagram>, read: nat, index: map<nat, nat>, pending: int,
                        out: seq<Errno>) {
    && read <= |stream| && NoFailure(stream[..read])
    && Tracks(reqs, Flat(stream[..read]), index, pending, out)
    && (AllDistinct(reqs) ==> NotBefore(reqs, stream, read))
  }

  /** The results asked for: the shortest prefix that answers everything, and its first answers. */
  ghost predicate IsResult(reqs: seq<nat>, stream: seq<Datagram>, read: nat, results: seq<Errno>) {
    && read <= |stream| && NoFailure(stream[..read]) && NotBefore(reqs, stream, read)
    && |results| == |reqs|
    && forall i | 0 <= i < |reqs| :: FirstAnswer(Flat(stream[..read]), reqs[i]) == Some(results[i])
  }

  /** No prefix answers everything before something fails. */
  ghost predicate HasNoResult(reqs: seq<nat>, stream: seq<Datagram>) {
    forall k | 0 <= k <= |stream| && NoFailure(stream[..k]) :: !AllAnswered(reqs, Flat(stream[..k]))
  }

  lemma GoesOn(reqs: seq<nat>, stream: seq<Datagram>, read: nat, index: map<nat, nat>, pending: int, out: seq<Errno>,
               index': map<nat, nat>, pending': int, out': seq<Errno>)
    requires Going(reqs, stream, read, index, pending, out) && pending > 0 && read < |stream| && stream[read].Msgs?
    requires Tracks(reqs, Flat(stream[..read]) + stream[read].msgs, index', pending', out')
    ensures Going(reqs, stream, read + 1, index', pending', out')
  {
    assert stream[..read + 1][..read] == stream[..read];
    if AllDistinct(reqs) {
      PendingMeansUnanswered(reqs, Flat(stream[..read]), index, pending, out);
    }
  }

  lemma FailureStops(stream: seq<Datagram>, read: nat, k: nat)
    requires read < k <= |stream| && stream[read].Failed?
    ensures !NoFailure(stream[..k])
  {
    assert stream[..k][read].Failed?;
  }

  lemma Stops(reqs: seq<nat>, stream: seq<Datagram>, read: nat, index: map<nat, nat>, pending: int, out: seq<Errno>)
    requires Going(reqs, stream, read, index, pending, out) && pending > 0 && AllDistinct(reqs)
    requires read == |stream| || stream[read].Failed?
    ensures HasNoResult(reqs, stream)
  {
    PendingMeansUnanswered(reqs, Flat(stream[..read]), index, pending, out);
    forall k | 0 <= k <= |stream| ensures NoFailure(stream[..k]) ==> !AllAnswered(reqs, Flat(stream[..k])) {
      if k > read {
        FailureStops(stream, read, k);
      }
    }
  }

  lemma Done(reqs: seq<nat>, stream: seq<Datagram>, read: nat, index: map<nat, nat>, pending: int, out: seq<Errno>)
    requires Going(reqs, stream, read, index, pending, out) && pending <= 0
    ensures AllDistinct(reqs) && IsResult(reqs, stream, read, out) && !HasNoResult(reqs, stream)
  {
    PendingMeansUnanswered(reqs, Flat(stream[..read]), index, pending, out);
    assert AllAnswered(reqs, Flat(stream[..read]));
  }

  /** How many requests have no valid reply among the messages. */
  function Unanswered(reqs: seq<nat>, msgs: seq<Msg>): nat {
    if reqs == [] then 0
    else
      var n := |reqs| - 1;
      Unanswered(reqs[..n], msgs) + if FirstAnswer(msgs, reqs[n]).None? then 1 else 0
  }

  /** Nothing is unanswered exactly when every request has its answer. */
  lemma {:induction false} NoneUnansweredIff(reqs: seq<nat>, msgs: seq<Msg>)
    ensures Unanswered(reqs, msgs) == 0 <==> AllAnswered(reqs, msgs)
  {
    if reqs != [] {
      var n := |reqs| - 1;
      NoneUnansweredIff(reqs[..n], msgs);
      assert AllAnswered(reqs, msgs) ==> AllAnswered(reqs[..n], msgs);
    }
  }

  lemma ResultLeavesNone(reqs: seq<nat>, stream: seq<Datagram>, read: nat, results: seq<Errno>)
    requires IsResult(reqs, stream, read, results)
    ensures !HasNoResult(reqs, stream)
    ensures Unanswered(reqs, Flat(stream[..read])) == 0
  {
    assert AllAnswered(reqs, Flat(stream[..read]));
    NoneUnansweredIff(reqs, Flat(stream[..read]));
  }

  /** The index of each request by sequence number; the last of a repeated number wins. */
  method IndexOf(reqs: seq<nat>) returns (index: map<nat, nat>)
    ensures index.Keys == Elements(reqs)
    ensures forall s | s in index :: index[s] < |reqs| && reqs[index[s]] == s
  {
    index := map[];
    for i := 0 to |reqs|
      invariant index.Keys == Elements(reqs[..i])
      invariant forall s | s in index :: index[s] < i && reqs[index[s]] == s
    {
      assert reqs[..i + 1] == reqs[..i] + [reqs[i]];
      index := index[reqs[i] := i];
    }
    assert reqs[..|reqs|] == reqs;
  }

  /** The inner loop: the messages of one datagram. */
  method Take(ghost reqs: seq<nat>, ghost before: seq<Msg>, msgs: seq<Msg>, index0: map<nat, nat>, pending0: int,
              results0: seq<Errno>)
    returns (index: map<nat, nat>, pending: int, results: seq<Errno>)
    requires Tracks(reqs, before, index0, pending0, results0)
    ensures Tracks(reqs, before + msgs, index, pending, results)
  {
    index, pending, results := index0, pending0, results0;
    assert before + msgs[..0] == before;
    for j := 0 to |msgs|
      invariant Tracks(reqs, before + msgs[..j], index, pending, results)
    {
      index, pending, results := Note(reqs, before + msgs[..j], msgs[j], index, pending, results);
      assert before + msgs[..j + 1] == before + msgs[..j] + [msgs[j]];
    }
    assert msgs[..|msgs|] == msgs;
  }

  /** One message: the first valid reply to a request still waiting is noted, any other is skipped. */
  method Note(ghost reqs: seq<nat>, ghost before: seq<Msg>, m: Msg, index0: map<nat, nat>, pending0: int,
              results0: seq<Errno>)
    returns (index: map<nat, nat>, pending: int, results: seq<Errno>)
    requires Tracks(reqs, before, index0, pending0, results0)
    ensures Tracks(reqs, before + [m], index, pending, results)
  {
    index, pending, results := index0, pending0, results0;
    if m.seqNo !in index || m.kind != NLMSG_ERROR || m.len < 4 {
      SkipTracks(reqs, before, index, pending, results, m);
      return;
    }
    NoteTracks(reqs, before, index, pending, results, m);
    var i := index[m.seqNo];
    index := index - {m.seqNo};
    pending := pending - 1;
    results := results[i := Answer(m.code)];
  }

  /**
   exchange. With distinct sequence numbers it succeeds exactly when some prefix of the stream answers
   every request before anything fails; it reads the shortest such prefix, and each result is the first
   valid reply's errno. With a repeated number it never succeeds.
   */
  method Exchange(reqs: seq<nat>, sendFails: bool, stream: seq<Datagram>)
    returns (results: Option<seq<Errno>>, read: nat)
    ensures results.Some? <==> !sendFails && AllDistinct(reqs) && !HasNoResult(reqs, stream)
    ensures results.Some? ==> IsResult(reqs, stream, read, results.value)
    ensures read <= |stream|
  {
    read := 0;
    var index := IndexOf(reqs);
    if sendFails {
      return None, 0;
    }
    var out := seq(|reqs|, _ => 0);
    var pending := |reqs|;
    assert stream[..0] == [];
    TracksAtFirst(reqs, index, out);
    while pending > 0
      invariant Going(reqs, stream, read, index, pending, out)
      decreases |stream| - read
    {
      if read == |stream| || stream[read].Failed? {
        if AllDistinct(reqs) {
          Stops(reqs, stream, read, index, pending, out);
        }
        return None, read;
      }
      ghost var index0, pending0, out0 := index, pending, out;
      index, pending, out := Take(reqs, Flat(stream[..read]), stream[read].msgs, index, pending, out);
      GoesOn(reqs, stream, read, index0, pending0, out0, index, pending, out);
      read := read + 1;
    }
    Done(reqs, stream, read, index, pending, out);
    return Some(out), read;
  }

  lemma {:induction false} SomeAnswer(msgs: seq<Msg>, seqNo: nat, m: Msg)
    requires m in msgs && Answers(m, seqNo)
    ensures FirstAnswer(msgs, seqNo).Some?
  {
    if !Answers(msgs[0], seqNo) {
      SomeAnswer(msgs[1..], seqNo, m);
    }
  }

  /** The first valid reply to request i among the messages: an NLMSG_ERROR with its number and at least four bytes. */
  predicate IsFirstReply(msgs: seq<Msg>, seqNo: nat, j: nat) {
    && j < |msgs| && msgs[j].seqNo == seqNo && msgs[j].kind == 2 && msgs[j].len >= 4
    && forall k | 0 <= k < j :: msgs[k].seqNo != seqNo || msgs[k].kind != 2 || msgs[k].len < 4
  }

  lemma {:induction false} FirstReply(msgs: seq<Msg>, seqNo: nat) returns (j: nat)
    requires FirstAnswer(msgs, seqNo).Some?
    ensures IsFirstReply(msgs, seqNo, j) && FirstAnswer(msgs, seqNo).value == Answer(msgs[j].code)
  {
    j := 0;
    if !Answers(msgs[0], seqNo) {
      j := FirstReply(msgs[1..], seqNo);
      j := j + 1;
      assert forall k | 1 <= k <= j :: msgs[k] == msgs[1..][k - 1];
    }
  }

  /**
   Each result of an exchange undoes the sign of the code in the request's first valid reply. The one
   32-bit code whose negative is no 32-bit number comes back as it is.
   */
  lemma ResultNegatesCode(reqs: seq<nat>, stream: seq<Datagram>, read: nat, results: seq<Errno>, i: nat)
    returns (j: nat)
    requires IsResult(reqs, stream, read, results) && i < |reqs|
    ensures IsFirstReply(Flat(stream[..read]), reqs[i], j)
    ensures var code := Flat(stream[..read])[j].code;
            && (code > -0x8000_0000 ==> results[i] + code == 0)
            && (code == -0x8000_0000 ==> results[i] == code)
  {
    j := FirstReply(Flat(stream[..read]), reqs[i]);
  }

  // ----- order does not matter -----

  ghost predicate HasReply(msgs: seq<Msg>, seqNo: nat) {
    exists m :: m in msgs && Answers(m, seqNo)
  }

  /** Each request has a valid reply, and no two that differ, among the messages. */
  ghost predicate OneReplyEach(reqs: seq<nat>, msgs: seq<Msg>) {
    && (forall i | 0 <= i < |reqs| :: HasReply(msgs, reqs[i]))
    && (forall i, m, n | 0 <= i < |reqs| && m in msgs && n in msgs && Answers(m, reqs[i]) && Answers(n, reqs[i]) ::
          m.code == n.code)
  }

  lemma {:induction false} AnswerIsSome(msgs: seq<Msg>, seqNo: nat, m: Msg)
    requires m in msgs && Answers(m, seqNo)
    requires forall n | n in msgs && Answers(n, seqNo) :: n.code == m.code
    ensures FirstAnswer(msgs, seqNo) == Some(Answer(m.code))
  {
    if !Answers(msgs[0], seqNo) {
      AnswerIsSome(msgs[1..], seqNo, m);
    }
  }

  /** Replies that agree on each request give the same results in any order, duplicated or not. */
  lemma OrderDoesNotMatter(reqs: seq<nat>, msgs: seq<Msg>, others: seq<Msg>, i: nat)
    requires OneReplyEach(reqs, msgs) && i < |reqs|
    requires forall m :: m in msgs <==> m in others
    ensures FirstAnswer(msgs, reqs[i]).Some? && FirstAnswer(msgs, reqs[i]) == FirstAnswer(others, reqs[i])
  {
    assert HasReply(msgs, reqs[i]);
    var m :| m in msgs && Answers(m, reqs[i]);
    AnswerIsSome(msgs, reqs[i], m);
    AnswerIsSome(others, reqs[i], m);
  }

  /** So two successful exchanges whose replies are the same up to order return the same results. */
  lemma SameResults(reqs: seq<nat>, s1: seq<Datagram>, r1: nat, out1: seq<Errno>, s2: seq<Datagram>, r2: nat,
                    out2: seq<Errno>)
    requires IsResult(reqs, s1, r1, out1) && IsResult(reqs, s2, r2, out2)
    requires OneReplyEach(reqs, Flat(s1[..r1]))
    requires multiset(Flat(s1[..r1])) == multiset(Flat(s2[..r2]))
    ensures out1 == out2
  {
    var msgs, others := Flat(s1[..r1]), Flat(s2[..r2]);
    forall m ensures m in msgs <==> m in others {
      assert m in multiset(msgs) <==> m in multiset(others);
    }
    forall i | 0 <= i < |reqs| ensures out1[i] == out2[i] {
      OrderDoesNotMatter(reqs, msgs, others, i);
      assert FirstAnswer(msgs, reqs[i]) == Some(out1[i]) && FirstAnswer(others, reqs[i]) == Some(out2[i]);
    }
  }
}
