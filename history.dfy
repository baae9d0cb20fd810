/** What a sequence of submissions, one after the other, does to the transcript and to the
    chat widget's history. Submissions are strictly sequential: each one runs to completion
    before the next starts. */
module ChatHistory {
  import opened PyText
  import opened Chat

  /** One submission: the text typed and what the completion service answered. */
  datatype Exchange = Exchange(message: string, outcome: Outcome)

  /** The transcript after submitting `xs` in order, starting from `t`. */
  function TranscriptAfter(t: seq<Turn>, xs: seq<Exchange>): seq<Turn>
    decreases |xs|
  {
    if xs == [] then t
    else
      var x := xs[|xs| - 1];
      NextTranscript(TranscriptAfter(t, xs[..|xs| - 1]), x.message, x.outcome)
  }

  /** The display history after submitting `xs` in order, starting from `d`. */
  function DisplayAfter(d: seq<DisplayPair>, xs: seq<Exchange>): seq<DisplayPair>
    decreases |xs|
  {
    if xs == [] then d
    else
      var x := xs[|xs| - 1];
      NextDisplay(DisplayAfter(d, xs[..|xs| - 1]), x.message, x.outcome)
  }

  /** The submission is not blank and the service answered it. */
  predicate Answered(x: Exchange) {
    !IsBlank(x.message) && x.outcome.Success?
  }

  /** The submission is not blank and the service failed on it. */
  predicate Unanswered(x: Exchange) {
    !IsBlank(x.message) && x.outcome.Failure?
  }

  /** Every submission is non-blank and the service answers every one. */
  predicate AllSucceed(xs: seq<Exchange>) {
    forall i :: 0 <= i < |xs| ==> Answered(xs[i])
  }

  /** Every submission is non-blank and the service fails on every one. */
  predicate AllFail(xs: seq<Exchange>) {
    forall i :: 0 <= i < |xs| ==> Unanswered(xs[i])
  }

  /** The turns the submissions append to the transcript before any trimming: a user turn
      for each non-blank one, followed by an assistant turn when the service answered. */
  function TurnsOf(xs: seq<Exchange>): seq<Turn>
    decreases |xs|
  {
    if xs == [] then [] else TurnsOf(xs[..|xs| - 1]) + Contribution(xs[|xs| - 1])
  }

  /** The turns one submission appends before trimming. */
  function Contribution(x: Exchange): seq<Turn> {
    if IsBlank(x.message) then []
    else match x.outcome
      case Success(reply) => [Turn(User, x.message), Turn(Assistant, reply)]
      case Failure(_) => [Turn(User, x.message)]
  }

  /** The display pairs the submissions add: one per non-blank submission. */
  function DisplayOf(xs: seq<Exchange>): seq<DisplayPair>
    decreases |xs|
  {
    if xs == [] then []
    else
      var x := xs[|xs| - 1];
      DisplayOf(xs[..|xs| - 1]) +
      (if IsBlank(x.message) then [] else [DisplayPair(x.message, Shown(x.outcome))])
  }

  /** The last `KeptTurns` entries of `u` (all of `u` when it is shorter). */
  function Recent(u: seq<Turn>): seq<Turn> {
    if |u| <= KeptTurns then u else u[|u| - KeptTurns..]
  }

  /** Well-formedness (system turn first and only there) survives any run of submissions. */
  lemma {:induction false} TranscriptAfterWellFormed(t: seq<Turn>, xs: seq<Exchange>, prompt: string)
    requires WellFormed(t, prompt)
    ensures WellFormed(TranscriptAfter(t, xs), prompt)
    decreases |xs|
  {
    if xs != [] {
      var xs' := xs[..|xs| - 1];
      var x := xs[|xs| - 1];
      TranscriptAfterWellFormed(t, xs', prompt);
      NextTranscriptWellFormed(TranscriptAfter(t, xs'), prompt, x.message, x.outcome);
    }
  }

  /** The display history only ever grows at its end, by the pairs of the non-blank
      submissions in order. */
  lemma {:induction false} DisplayAfterAppends(d: seq<DisplayPair>, xs: seq<Exchange>)
    ensures DisplayAfter(d, xs) == d + DisplayOf(xs)
    decreases |xs|
  {
    if xs != [] {
      DisplayAfterAppends(d, xs[..|xs| - 1]);
    }
  }

  /** When no submission is blank, each one adds exactly one pair, in order: the message
      with the reply, or the message with the error text. */
  lemma {:induction false} DisplayOfNonBlank(xs: seq<Exchange>)
    requires forall i :: 0 <= i < |xs| ==> !IsBlank(xs[i].message)
    ensures |DisplayOf(xs)| == |xs|
    ensures forall i :: 0 <= i < |xs| ==> DisplayOf(xs)[i] == DisplayPair(xs[i].message, Shown(xs[i].outcome))
    decreases |xs|
  {
    if xs != [] {
      DisplayOfNonBlank(xs[..|xs| - 1]);
    }
  }

  /** Trimming a transcript is keeping its first turn and the most recent rest. */
  lemma TrimKeepsRecent(t0: Turn, u: seq<Turn>)
    ensures Trim([t0] + u) == [t0] + Recent(u)
  {
    var t := [t0] + u;
    if |t| > MaxTurns {
      assert t[|t| - KeptTurns..] == u[|u| - KeptTurns..];
    }
  }

  /** Dropping old turns early does not change which turns are the most recent. */
  lemma RecentAppend(u: seq<Turn>, v: seq<Turn>)
    ensures Recent(Recent(u) + v) == Recent(u + v)
  {
    if |u| > KeptTurns && v != [] {
      var w := Recent(u) + v;
      var n := |u + v|;
      assert |w| == KeptTurns + |v|;
      forall j | |v| <= j < |w| ensures w[j] == (u + v)[n - |w| + j] {
        if j < KeptTurns {
          assert w[j] == u[|u| - KeptTurns + j];
        }
      }
      assert w[|w| - KeptTurns..] == (u + v)[n - KeptTurns..];
    }
  }

  /** A run of answered submissions leaves the first turn followed by the most recent
      `KeptTurns` of all the turns so far, in order. This holds from a transcript within the
      bound, and after at least one answer from a transcript of any length, such as one that
      failures have taken past the bound. */
  lemma {:induction false} TranscriptAfterSucceeding(t: seq<Turn>, xs: seq<Exchange>)
    requires 1 <= |t| && (|t| <= MaxTurns || xs != [])
    requires AllSucceed(xs)
    ensures TranscriptAfter(t, xs) == [t[0]] + Recent(t[1..] + TurnsOf(xs))
    decreases |xs|
  {
    if xs == [] {
      assert t[1..] + TurnsOf(xs) == t[1..];
      assert t == [t[0]] + t[1..];
    } else if |xs| == 1 {
      assert xs[..0] == [];
      assert TurnsOf(xs) == Contribution(xs[0]);
      SucceedingFirst(t, xs[0]);
    } else {
      assert AllSucceed(xs[..|xs| - 1]);
      TranscriptAfterSucceeding(t, xs[..|xs| - 1]);
      SucceedingTail(t[0], t[1..], t, xs);
    }
  }

  /** One answered submission on a transcript of any length: its first turn followed by the
      most recent turns of the rest and the new user turn and reply. */
  lemma SucceedingFirst(t: seq<Turn>, x: Exchange)
    requires 1 <= |t| && Answered(x)
    ensures NextTranscript(t, x.message, x.outcome) ==
      [t[0]] + Recent(t[1..] + Contribution(x))
  {
    var pair := [Turn(User, x.message), Turn(Assistant, x.outcome.reply)];
    var sent := Request(t, x.message) + [Turn(Assistant, x.outcome.reply)];
    assert sent == [t[0]] + (t[1..] + pair);
    TrimKeepsRecent(t[0], t[1..] + pair);
  }

  /** The inductive step of `TranscriptAfterSucceeding`: one more answered submission. */
  lemma SucceedingTail(t0: Turn, h: seq<Turn>, t: seq<Turn>, xs: seq<Exchange>)
    requires xs != [] && Answered(xs[|xs| - 1])
    requires TranscriptAfter(t, xs[..|xs| - 1]) == [t0] + Recent(h + TurnsOf(xs[..|xs| - 1]))
    ensures TranscriptAfter(t, xs) == [t0] + Recent(h + TurnsOf(xs))
  {
    var xs', x := xs[..|xs| - 1], xs[|xs| - 1];
    var pair := [Turn(User, x.message), Turn(Assistant, x.outcome.reply)];
    assert TurnsOf(xs) == TurnsOf(xs') + pair;
    SucceedingStep(t0, h + TurnsOf(xs'), x);
    calc {
      TranscriptAfter(t, xs);
      NextTranscript(TranscriptAfter(t, xs'), x.message, x.outcome);
      [t0] + Recent((h + TurnsOf(xs')) + pair);
      { assert (h + TurnsOf(xs')) + pair == h + TurnsOf(xs); }
      [t0] + Recent(h + TurnsOf(xs));
    }
  }

  /** One answered submission on a trimmed transcript: the most recent turns gain the
      user's turn and the reply. */
  lemma SucceedingStep(t0: Turn, u: seq<Turn>, x: Exchange)
    requires !IsBlank(x.message) && x.outcome.Success?
    ensures NextTranscript([t0] + Recent(u), x.message, x.outcome) ==
      [t0] + Recent(u + [Turn(User, x.message), Turn(Assistant, x.outcome.reply)])
  {
    var pair := [Turn(User, x.message), Turn(Assistant, x.outcome.reply)];
    var prev := Recent(u);
    var sent := Request([t0] + prev, x.message) + [Turn(Assistant, x.outcome.reply)];
    assert sent == [t0] + (prev + pair);
    TrimKeepsRecent(t0, prev + pair);
    RecentAppend(u, pair);
    calc {
      NextTranscript([t0] + prev, x.message, x.outcome);
      Trim(sent);
      [t0] + Recent(prev + pair);
      [t0] + Recent(u + pair);
    }
  }

  /** Turns contributed by a concatenation are those of each part, in order. */
  lemma {:induction false} TurnsOfAppend(a: seq<Exchange>, b: seq<Exchange>)
    ensures TurnsOf(a + b) == TurnsOf(a) + TurnsOf(b)
    decreases |b|
  {
    if b != [] {
      var b', y := b[..|b| - 1], b[|b| - 1];
      assert (a + b)[..|a + b| - 1] == a + b';
      assert (a + b)[|a + b| - 1] == y;
      TurnsOfAppend(a, b');
      var p, q, r := TurnsOf(a), TurnsOf(b'), Contribution(y);
      calc {
        TurnsOf(a + b);
        TurnsOf(a + b') + r;
        (p + q) + r;
        { AppendAssociative(p, q, r); }
        p + (q + r);
        TurnsOf(a) + TurnsOf(b);
      }
    } else {
      assert a + b == a;
    }
  }

  /** Splitting a run and joining the halves gives the run back. Kept as its own lemma so
      that the proofs using it do not have to rediscover this equality. */
  lemma SplitJoin(xs: seq<Exchange>, k: nat)
    requires k <= |xs|
    ensures xs[..k] + xs[k..] == xs
  {
  }

  /** Concatenation of turn lists is associative; stated once so that the calculation in
      `TurnsOfAppend` can name the step. */
  lemma AppendAssociative(p: seq<Turn>, q: seq<Turn>, r: seq<Turn>)
    ensures (p + q) + r == p + (q + r)
  {
  }

  /** Answered submissions contribute two turns each: the user's message, then the reply. */
  lemma {:induction false} TurnsOfSucceeding(xs: seq<Exchange>)
    requires AllSucceed(xs)
    ensures |TurnsOf(xs)| == 2 * |xs|
    ensures forall i :: 0 <= i < |xs| ==>
      TurnsOf(xs)[2 * i] == Turn(User, xs[i].message) &&
      TurnsOf(xs)[2 * i + 1] == Turn(Assistant, xs[i].outcome.reply)
    decreases |xs|
  {
    if xs != [] {
      var xs', x := xs[..|xs| - 1], xs[|xs| - 1];
      assert AllSucceed(xs');
      TurnsOfSucceeding(xs');
      assert Answered(x);
      var u, pair := TurnsOf(xs'), [Turn(User, x.message), Turn(Assistant, x.outcome.reply)];
      assert TurnsOf(xs) == u + pair;
      forall i | 0 <= i < |xs| ensures
        TurnsOf(xs)[2 * i] == Turn(User, xs[i].message) &&
        TurnsOf(xs)[2 * i + 1] == Turn(Assistant, xs[i].outcome.reply)
      {
        if i < |xs'| {
          assert xs[i] == xs'[i];
        }
      }
    }
  }

  /** From process start, `n` answered submissions give `1 + 2n` turns while that is within
      the bound, and exactly `MaxTurns` from the tenth one on. */
  lemma {:induction false} SuccessLength(prompt: string, xs: seq<Exchange>)
    requires AllSucceed(xs)
    ensures |TranscriptAfter(Initial(prompt), xs)| ==
      if |xs| <= 10 then 1 + 2 * |xs| else MaxTurns
    ensures TranscriptAfter(Initial(prompt), xs)[0] == Turn(System, prompt)
  {
    var t := Initial(prompt);
    TranscriptAfterSucceeding(t, xs);
    TurnsOfSucceeding(xs);
    assert t[1..] + TurnsOf(xs) == TurnsOf(xs);
  }

  /** The most recent `KeptTurns` turns of at least ten answered submissions are exactly
      the turns of the last ten. */
  lemma RecentOfSucceeding(xs: seq<Exchange>)
    requires AllSucceed(xs) && |xs| >= 10
    ensures Recent(TurnsOf(xs)) == TurnsOf(xs[|xs| - 10..])
  {
    var older, last := xs[..|xs| - 10], xs[|xs| - 10..];
    TurnsOfSplit(xs, |xs| - 10);
    assert AllSucceed(last);
    TurnsOfSucceeding(last);
    TurnsOfSucceeding(xs);
    var u := TurnsOf(xs);
    assert u == TurnsOf(older) + TurnsOf(last);
    assert u[|u| - KeptTurns..] == TurnsOf(last);
  }

  /** The turns of a run are those of any prefix followed by those of the rest. */
  lemma TurnsOfSplit(xs: seq<Exchange>, k: nat)
    requires k <= |xs|
    ensures TurnsOf(xs) == TurnsOf(xs[..k]) + TurnsOf(xs[k..])
  {
    var a, b := xs[..k], xs[k..];
    SplitJoin(xs, k);
    calc {
      TurnsOf(xs);
      TurnsOf(a + b);
      { TurnsOfAppend(a, b); }
      TurnsOf(a) + TurnsOf(b);
    }
  }

  /** From process start, once there have been at least ten answered submissions, the
      transcript is the system turn and exactly the turns of the last ten. */
  lemma SuccessWindow(prompt: string, xs: seq<Exchange>)
    requires AllSucceed(xs) && |xs| >= 10
    ensures TranscriptAfter(Initial(prompt), xs) ==
      Initial(prompt) + TurnsOf(xs[|xs| - 10..])
  {
    var t := Initial(prompt);
    TranscriptAfterSucceeding(t, xs);
    assert t[1..] + TurnsOf(xs) == TurnsOf(xs);
    RecentOfSucceeding(xs);
  }

  /** After more than ten answered submissions the first user turn has been evicted (when
      its text is not typed again in the last ten), while the system turn stays first; twenty-five
      submissions are one such run. */
  lemma FirstUserTurnEvicted(prompt: string, xs: seq<Exchange>)
    requires AllSucceed(xs) && |xs| > 10
    requires forall i :: |xs| - 10 <= i < |xs| ==> xs[i].message != xs[0].message
    ensures |TranscriptAfter(Initial(prompt), xs)| == MaxTurns
    ensures TranscriptAfter(Initial(prompt), xs)[0] == Turn(System, prompt)
    ensures Turn(User, xs[0].message) !in TranscriptAfter(Initial(prompt), xs)
  {
    var last := xs[|xs| - 10..];
    SuccessWindow(prompt, xs);
    assert AllSucceed(last);
    TurnsOfSucceeding(last);
    if Turn(User, xs[0].message) in TurnsOf(last) {
      UserTurnsOf(last, xs[0].message);
      assert false;
    }
  }

  /** Every user turn in the contributed turns carries the text of one of the submissions. */
  lemma {:induction false} UserTurnsOf(xs: seq<Exchange>, m: string)
    requires Turn(User, m) in TurnsOf(xs)
    ensures exists i :: 0 <= i < |xs| && xs[i].message == m
    decreases |xs|
  {
    var xs' := xs[..|xs| - 1];
    var x := xs[|xs| - 1];
    if Turn(User, m) in TurnsOf(xs') {
      UserTurnsOf(xs', m);
      var i :| 0 <= i < |xs'| && xs'[i].message == m;
      assert xs[i] == xs'[i];
    } else {
      assert Turn(User, m) in Contribution(x);
      assert xs[|xs| - 1].message == m;
    }
  }

  /** Failed submissions only ever append the user's turns: nothing is trimmed, so a run of
      failures can take the transcript past the bound. */
  lemma {:induction false} TranscriptAfterFailing(t: seq<Turn>, xs: seq<Exchange>)
    requires AllFail(xs)
    ensures TranscriptAfter(t, xs) == t + TurnsOf(xs)
    ensures |TranscriptAfter(t, xs)| == |t| + |xs|
    ensures forall i :: 0 <= i < |xs| ==>
      TranscriptAfter(t, xs)[|t| + i] == Turn(User, xs[i].message)
    decreases |xs|
  {
    if xs != [] {
      var xs' := xs[..|xs| - 1];
      var x := xs[|xs| - 1];
      assert AllFail(xs');
      TranscriptAfterFailing(t, xs');
      assert TranscriptAfter(t, xs) == Request(TranscriptAfter(t, xs'), x.message);
      assert TurnsOf(xs) == TurnsOf(xs') + [Turn(User, x.message)];
    }
    TurnsOfFailing(xs);
  }

  /** Failed submissions contribute one turn each: the user's message. */
  lemma {:induction false} TurnsOfFailing(xs: seq<Exchange>)
    requires AllFail(xs)
    ensures |TurnsOf(xs)| == |xs|
    ensures forall i :: 0 <= i < |xs| ==> TurnsOf(xs)[i] == Turn(User, xs[i].message)
    decreases |xs|
  {
    if xs != [] {
      var xs', x := xs[..|xs| - 1], xs[|xs| - 1];
      assert AllFail(xs');
      TurnsOfFailing(xs');
      assert Unanswered(x);
      assert TurnsOf(xs) == TurnsOf(xs') + [Turn(User, x.message)];
      forall i | 0 <= i < |xs| ensures TurnsOf(xs)[i] == Turn(User, xs[i].message) {
        if i < |xs'| {
          assert xs[i] == xs'[i];
        }
      }
    }
  }

  /** Twenty-one failed submissions from process start leave more than `MaxTurns` turns. */
  lemma FailuresExceedBound(prompt: string, xs: seq<Exchange>)
    requires AllFail(xs) && |xs| >= MaxTurns
    ensures |TranscriptAfter(Initial(prompt), xs)| > MaxTurns
  {
    TranscriptAfterFailing(Initial(prompt), xs);
  }

  /** The first question after start-up, with the widget showing its welcome pair: the
      transcript becomes system, user, assistant and the widget gains the answered pair. */
  lemma FirstQuestion(prompt: string, welcome: string, reply: string)
    ensures var q := "What is Emilie's experience?";
      NextTranscript(Initial(prompt), q, Success(reply)) ==
        [Turn(System, prompt), Turn(User, q), Turn(Assistant, reply)] &&
      NextDisplay([DisplayPair("", welcome)], q, Success(reply)) ==
        [DisplayPair("", welcome), DisplayPair(q, reply)]
  {
    var q := "What is Emilie's experience?";
    assert !IsBlank(q) by {
      assert !IsSpace(q[0]);
    }
    var sent := Request(Initial(prompt), q) + [Turn(Assistant, reply)];
    assert sent == [Turn(System, prompt), Turn(User, q), Turn(Assistant, reply)];
    assert Trim(sent) == sent;
  }
}
