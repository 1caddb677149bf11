/** What an actor's stored reputation is, over every run: the sum of its own
    updates since the last gap between updates of any actor. */
module ScoreRuns {
  import opened Words
  import opened Wrappers
  import opened Store
  import opened Ledger

  /** The updates after the last gap of at least w: all fields share one expiry,
      which every update refreshes. */
  function Lifetime(us: seq<Update>, w: int): (r: seq<Update>)
    ensures |r| <= |us|
  {
    if us == [] then []
    else
      var n := |us| - 1;
      if n > 0 && us[n].time - us[n - 1].time < w then Lifetime(us[..n], w) + [us[n]] else [us[n]]
  }

  function SumOf(us: seq<Update>, field: Word): real {
    if us == [] then 0.0
    else
      var n := |us| - 1;
      SumOf(us[..n], field) + (if us[n].field == field then us[n].delta else 0.0)
  }

  /** The sum that is still alive at a time. */
  function LiveSum(us: seq<Update>, w: int, field: Word, now: int): real {
    if us != [] && now - us[|us| - 1].time < w then SumOf(Lifetime(us, w), field) else 0.0
  }

  /** The hash holds exactly the live sums. */
  ghost predicate HashInv(conf: Conf, l: Ledger) {
    var k := RepKey(conf.prefix);
    && (Alive(l.db.hashes, k, l.now) <==>
          l.updates != [] && l.now - l.updates[|l.updates| - 1].time < conf.rep.scoreWindow)
    && (l.updates != [] ==> l.updates[|l.updates| - 1].time <= l.now)
    && (Alive(l.db.hashes, k, l.now) ==>
          l.db.hashes[k].expiry == Some(l.updates[|l.updates| - 1].time + conf.rep.scoreWindow))
    && (forall f :: Score(l.db, k, f, l.now) == LiveSum(l.updates, conf.rep.scoreWindow, f, l.now))
  }

  lemma SumSnoc(us: seq<Update>, u: Update, field: Word)
    ensures SumOf(us + [u], field) == SumOf(us, field) + (if u.field == field then u.delta else 0.0)
  {
    assert (us + [u])[..|us|] == us;
  }

  /** One more update adds its delta to its own actor's live sum and to no other. */
  lemma LiveSumSnoc(us: seq<Update>, u: Update, w: int, field: Word, now: int)
    requires u.time == now && w > 0
    ensures LiveSum(us + [u], w, field, now) ==
            LiveSum(us, w, field, now) + (if u.field == field then u.delta else 0.0)
  {
    SumSnoc(Lifetime(us, w), u, field);
    SumSnoc([], u, field);
    assert [] + [u] == [u];
  }

  lemma JudgeHash(conf: Conf, l: Ledger, ip: Word, field: Word, delta: real)
    requires conf.rep.scoreWindow > 0 && HashInv(conf, l)
    ensures HashInv(conf, Next(conf, l, Judge(ip, field, delta)))
    ensures var us := Next(conf, l, Judge(ip, field, delta)).updates;
            us == l.updates + [us[|l.updates|]] &&
            us[|l.updates|].score == LiveSum(us, conf.rep.scoreWindow, field, l.now)
  {
    var l' := Next(conf, l, Judge(ip, field, delta));
    var k := RepKey(conf.prefix);
    var reply := JudgeReply(conf, l.now, l.db, ip, field, delta);
    var u := Update(l.now, field, delta, reply.score, reply.action);
    assert l'.db.hashes[k] == Entry(Fields(l.db, k, l.now)[field := reply.score], Some(l.now + conf.rep.scoreWindow));
    forall f
      ensures Score(l'.db, k, f, l'.now) == LiveSum(l'.updates, conf.rep.scoreWindow, f, l'.now)
    {
      LiveSumSnoc(l.updates, u, conf.rep.scoreWindow, f, l.now);
      assert Score(l.db, k, f, l.now) == LiveSum(l.updates, conf.rep.scoreWindow, f, l.now);
    }
    assert Score(l.db, k, field, l.now) == LiveSum(l.updates, conf.rep.scoreWindow, field, l.now);
    LiveSumSnoc(l.updates, u, conf.rep.scoreWindow, field, l.now);
  }

  lemma OtherHash(conf: Conf, l: Ledger, op: Op)
    requires !op.Judge? && HashInv(conf, l)
    ensures HashInv(conf, Next(conf, l, op))
    ensures Next(conf, l, op).updates == l.updates
  {
    var l' := Next(conf, l, op);
    assert l'.db.hashes == l.db.hashes;
    forall f
      ensures Score(l'.db, RepKey(conf.prefix), f, l'.now) == LiveSum(l'.updates, conf.rep.scoreWindow, f, l'.now)
    {
      assert Score(l.db, RepKey(conf.prefix), f, l.now) == LiveSum(l.updates, conf.rep.scoreWindow, f, l.now);
    }
  }

  /** Every recorded score is the live sum of its own actor at its own time. */
  ghost predicate ScoresRecorded(us: seq<Update>, w: int) {
    forall j :: 0 <= j < |us| ==> us[j].score == LiveSum(us[..j + 1], w, us[j].field, us[j].time)
  }

  /** Over every run the stored reputation of an actor is the sum of its own
      updates since the last gap of at least ScoreWindow between updates of any
      actor, and so is every score the script ever decided on. */
  lemma {:induction false} ReputationIsSum(conf: Conf, db: Db, now: int, ops: seq<Op>)
    requires conf.rep.scoreWindow > 0 && Quiet(db, now)
    ensures var l := Run(conf, Start(db, now), ops);
            && HashInv(conf, l)
            && ScoresRecorded(l.updates, conf.rep.scoreWindow)
  {
    if ops != [] {
      var n := |ops| - 1;
      ReputationIsSum(conf, db, now, ops[..n]);
      var l := Run(conf, Start(db, now), ops[..n]);
      var us := Next(conf, l, ops[n]).updates;
      if ops[n].Judge? {
        JudgeHash(conf, l, ops[n].ip, ops[n].field, ops[n].delta);
        forall j | 0 <= j < |us|
          ensures us[j].score == LiveSum(us[..j + 1], conf.rep.scoreWindow, us[j].field, us[j].time)
        {
          if j < |l.updates| {
            assert us[..j + 1] == l.updates[..j + 1];
          } else {
            assert us[..j + 1] == us;
          }
        }
      } else {
        OtherHash(conf, l, ops[n]);
      }
    }
  }

  // ---------------------------------------------------------------------
  // Actions never go down inside one lifetime
  // ---------------------------------------------------------------------

  function ActionOf(rep: RepConfig, score: real): int {
    if score >= rep.threshold then 2 else if score >= rep.warning then 1 else 0
  }

  ghost predicate ActionsRecorded(rep: RepConfig, us: seq<Update>) {
    forall j :: 0 <= j < |us| ==> us[j].action == ActionOf(rep, us[j].score)
  }

  lemma {:induction false} RunActions(conf: Conf, l: Ledger, ops: seq<Op>)
    requires l.updates == []
    ensures ActionsRecorded(conf.rep, Run(conf, l, ops).updates)
  {
    if ops != [] {
      RunActions(conf, l, ops[..|ops| - 1]);
    }
  }

  /** No gap between the i-th and the j-th update. */
  ghost predicate NoGap(us: seq<Update>, i: nat, j: nat, w: int) {
    j < |us| && forall k :: i < k <= j ==> us[k].time - us[k - 1].time < w
  }

  ghost predicate AllPositive(us: seq<Update>) {
    forall j :: 0 <= j < |us| ==> us[j].delta > 0.0
  }

  lemma {:induction false} SumOfPositive(us: seq<Update>, field: Word)
    requires AllPositive(us)
    ensures SumOf(us, field) >= 0.0
  {
    if us != [] {
      SumOfPositive(us[..|us| - 1], field);
    }
  }

  lemma {:induction false} LifetimeGrows(us: seq<Update>, i: nat, j: nat, w: int, field: Word)
    requires i <= j && NoGap(us, i, j, w) && AllPositive(us)
    ensures SumOf(Lifetime(us[..i + 1], w), field) <= SumOf(Lifetime(us[..j + 1], w), field)
  {
    if i < j {
      LifetimeGrows(us, i, j - 1, w, field);
      var init := us[..j];
      assert us[..j + 1] == init + [us[j]];
      assert us[..j - 1 + 1] == init;
      SumSnoc(Lifetime(init, w), us[j], field);
    }
  }

  /** With positive updates an actor's score, and the action taken on it, do not
      decrease from one update to a later one in the same lifetime. */
  lemma ActionsNeverDecrease(conf: Conf, db: Db, now: int, ops: seq<Op>, i: nat, j: nat)
    requires conf.rep.scoreWindow > 0 && Quiet(db, now)
    requires AllPositive(Run(conf, Start(db, now), ops).updates)
    ensures var us := Run(conf, Start(db, now), ops).updates;
            i <= j < |us| && us[i].field == us[j].field && NoGap(us, i, j, conf.rep.scoreWindow) ==>
              us[i].score <= us[j].score && us[i].action <= us[j].action
  {
    hide Run;
    hide HashInv;
    ReputationIsSum(conf, db, now, ops);
    RunActions(conf, Start(db, now), ops);
    var us, w := Run(conf, Start(db, now), ops).updates, conf.rep.scoreWindow;
    if i <= j < |us| && us[i].field == us[j].field && NoGap(us, i, j, w) {
      RecordedActionsGrow(conf.rep, us, i, j, w);
    }
  }

  lemma RecordedActionsGrow(rep: RepConfig, us: seq<Update>, i: nat, j: nat, w: int)
    requires w > 0 && i <= j < |us|
    ensures ScoresRecorded(us, w) && ActionsRecorded(rep, us) && AllPositive(us) &&
            us[i].field == us[j].field && NoGap(us, i, j, w) ==>
              us[i].score <= us[j].score && us[i].action <= us[j].action
  {
    if ScoresRecorded(us, w) && ActionsRecorded(rep, us) && AllPositive(us) &&
       us[i].field == us[j].field && NoGap(us, i, j, w)
    {
      LifetimeGrows(us, i, j, w, us[i].field);
      assert us[..i + 1][i] == us[i] && us[..j + 1][j] == us[j];
    }
  }
}
