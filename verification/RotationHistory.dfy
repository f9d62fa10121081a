/** The tokens of a family form one chain: what the log of committed issues looks like in every run. */
module RotationHistory {
  import opened Wrappers
  import opened TokenModel
  import opened RotationSteps
  import opened RotationInvariant
  import opened RotationTheorems

  /** The newest token of a family, read off the log. */
  ghost function HeadOf(log: seq<Event>, f: FamilyId): Option<TokenHash> {
    if log == [] then None
    else
      var last := log[|log| - 1];
      if last.family == f then Some(last.minted) else HeadOf(log[..|log| - 1], f)
  }

  ghost function MintedIn(log: seq<Event>): set<TokenHash> {
    set i | 0 <= i < |log| :: log[i].minted
  }

  ghost function PresentedIn(log: seq<Event>): set<TokenHash> {
    set i | 0 <= i < |log| && log[i].Rotated? :: log[i].presented
  }

  /** The event issues a new token: the first of a new family, or the successor of the newest. */
  ghost predicate Extends(log: seq<Event>, e: Event) {
    && e.minted !in MintedIn(log)
    && match e
       case LoggedIn(f, _) => HeadOf(log, f) == None
       case Rotated(f, presented, _) => HeadOf(log, f) == Some(presented)
  }

  /** Every event extends the log before it. */
  ghost predicate Chained(log: seq<Event>) {
    log == [] || (Chained(log[..|log| - 1]) && Extends(log[..|log| - 1], log[|log| - 1]))
  }

  ghost predicate LogOk(st: Store) {
    && Chained(st.log)
    && st.issued == MintedIn(st.log)
    && forall f :: HeadOf(st.log, f) == if f in st.sessions then Some(st.sessions[f].head) else None
  }

  lemma AppendEvent(log: seq<Event>, e: Event)
    ensures MintedIn(log + [e]) == MintedIn(log) + {e.minted}
    ensures PresentedIn(log + [e]) == PresentedIn(log) + (if e.Rotated? then {e.presented} else {})
    ensures forall f :: HeadOf(log + [e], f) == if e.family == f then Some(e.minted) else HeadOf(log, f)
    ensures Chained(log) && Extends(log, e) ==> Chained(log + [e])
  {
    var both := log + [e];
    assert both[..|both| - 1] == log && both[|both| - 1] == e;
    assert forall i | 0 <= i < |log| :: both[i] == log[i];
    forall h | h in MintedIn(log) + {e.minted} ensures h in MintedIn(both) {
      if h == e.minted { assert both[|log|].minted == h; }
      else {
        var i :| 0 <= i < |log| && log[i].minted == h;
        assert both[i].minted == h;
      }
    }
    forall h | h in PresentedIn(log) ensures h in PresentedIn(both) {
      var i :| 0 <= i < |log| && log[i].Rotated? && log[i].presented == h;
      assert both[i].Rotated? && both[i].presented == h;
    }
    if e.Rotated? { assert both[|log|].Rotated? && both[|log|].presented == e.presented; }
  }

  function EventOf(tx: Txn): Event
    requires tx.phase.Minted?
  {
    match tx.phase.parent
    case Some(h) => Rotated(tx.phase.row.family, h, tx.phase.token)
    case None => LoggedIn(tx.phase.row.family, tx.phase.token)
  }

  lemma MintExtendsLog(cfg: Settings, st: Store, tx: Txn)
    requires RowsOk(st) && TxnOk(cfg, st, tx) && LogOk(st) && tx.phase.Minted?
    ensures Extends(st.log, EventOf(tx))
  {}

  lemma PublishedEvent(st: Store, tx: Txn)
    requires tx.phase.Minted?
    ensures var st', e := Publish(st, tx), EventOf(tx);
            && st'.log == st.log + [e] && st'.issued == st.issued + {e.minted}
            && st'.sessions.Keys == st.sessions.Keys + {e.family}
            && forall f | f in st'.sessions ::
                 st'.sessions[f].head == if f == e.family then e.minted else st.sessions[f].head
  {}

  lemma CommitKeepsLog(cfg: Settings, st: Store, tx: Txn)
    requires RowsOk(st) && TxnOk(cfg, st, tx) && LogOk(st)
    ensures LogOk(Publish(st, tx))
  {
    if tx.phase.Minted? {
      MintExtendsLog(cfg, st, tx);
      AppendEvent(st.log, EventOf(tx));
      PublishedEvent(st, tx);
    }
  }

  lemma StepKeepsLog(cfg: Settings, s: State, a: Action)
    requires Inv(cfg, s) && LogOk(s.store) && Enabled(s, a)
    ensures LogOk(Next(cfg, s, a).store)
  {
    if a.Commit? {
      CommitKeepsLog(cfg, s.store, s.txns[a.t]);
    } else {
      OnlyCommitsMakeHistory(cfg, s, a);
    }
  }

  lemma OnlyCommitsMakeHistory(cfg: Settings, s: State, a: Action)
    requires Enabled(s, a) && !a.Commit?
    ensures var st, st' := s.store, Next(cfg, s, a).store;
            st'.log == st.log && st'.issued == st.issued && st'.sessions == st.sessions
  {}

  lemma {:induction false} RunKeepsLog(cfg: Settings, s: State, run: seq<Action>)
    requires Inv(cfg, s) && LogOk(s.store) && Valid(cfg, s, run)
    ensures LogOk(Run(cfg, s, run).store)
    decreases |run|
  {
    if run != [] {
      StepKeepsInv(cfg, s, run[0]);
      StepKeepsLog(cfg, s, run[0]);
      RunKeepsLog(cfg, Next(cfg, s, run[0]), run[1..]);
    }
  }

  // ---------------------------------------------------------------------------------------
  // What a chained log implies.
  // ---------------------------------------------------------------------------------------

  /** A newest token has not been presented, and two families never share one. */
  lemma {:induction false} HeadsAreUnused(log: seq<Event>)
    requires Chained(log)
    ensures PresentedIn(log) <= MintedIn(log)
    ensures forall f | HeadOf(log, f).Some? ::
              HeadOf(log, f).value in MintedIn(log) && HeadOf(log, f).value !in PresentedIn(log)
    ensures forall f, g | f != g && HeadOf(log, f).Some? && HeadOf(log, g).Some? ::
              HeadOf(log, f).value != HeadOf(log, g).value
    decreases |log|
  {
    if log != [] {
      var init, e := log[..|log| - 1], log[|log| - 1];
      HeadsAreUnused(init);
      AppendEvent(init, e);
      assert log == init + [e];
    }
  }

  lemma {:induction false} ChainedPrefix(log: seq<Event>, n: nat)
    requires Chained(log) && n <= |log|
    ensures Chained(log[..n])
    decreases |log|
  {
    if n < |log| {
      var init := log[..|log| - 1];
      ChainedPrefix(init, n);
      assert init[..n] == log[..n];
    } else {
      assert log[..n] == log;
    }
  }

  /** Each token is exchanged for at most one successor. */
  lemma MintsOneSuccessor(log: seq<Event>, i: nat, j: nat)
    requires Chained(log) && i < j < |log| && log[i].Rotated? && log[j].Rotated?
    ensures log[i].presented != log[j].presented
  {
    ChainedPrefix(log, j);
    ChainedPrefix(log, j + 1);
    var upto := log[..j + 1];
    assert upto[..j] == log[..j] && upto[j] == log[j];
    HeadsAreUnused(log[..j]);
    assert log[..j][i].presented in PresentedIn(log[..j]);
  }

  ghost function TokensOf(log: seq<Event>, f: FamilyId): set<TokenHash> {
    set i | 0 <= i < |log| && log[i].family == f :: log[i].minted
  }

  ghost function Refreshes(log: seq<Event>, f: FamilyId): nat {
    if log == [] then 0
    else
      var last := log[|log| - 1];
      Refreshes(log[..|log| - 1], f) + if last.Rotated? && last.family == f then 1 else 0
  }

  /** A family has issued one token more than it has seen successful refreshes. */
  lemma {:induction false} ChainLength(log: seq<Event>, f: FamilyId)
    requires Chained(log)
    ensures |TokensOf(log, f)| == Refreshes(log, f) + if HeadOf(log, f).Some? then 1 else 0
    decreases |log|
  {
    if log == [] {
      assert TokensOf(log, f) == {};
    } else {
      var init, e := log[..|log| - 1], log[|log| - 1];
      ChainLength(init, f);
      assert forall i | 0 <= i < |init| :: init[i] == log[i];
      if e.family == f {
        forall h | h in TokensOf(init, f) + {e.minted} ensures h in TokensOf(log, f) {
          if h == e.minted { assert log[|init|].family == f && log[|init|].minted == h; }
          else {
            var i :| 0 <= i < |init| && init[i].family == f && init[i].minted == h;
            assert log[i].family == f && log[i].minted == h;
          }
        }
        assert TokensOf(log, f) == TokensOf(init, f) + {e.minted};
        forall h | h in TokensOf(init, f) ensures h in MintedIn(init) {}
        assert e.minted !in TokensOf(init, f);
      } else {
        forall h | h in TokensOf(init, f) ensures h in TokensOf(log, f) {
          var i :| 0 <= i < |init| && init[i].family == f && init[i].minted == h;
          assert log[i].family == f && log[i].minted == h;
        }
        assert TokensOf(log, f) == TokensOf(init, f);
      }
    }
  }

  /** Over every run: the issued tokens of every family form one linear chain, no token mints two
      successors however many callers present it, and a family that has logged in has issued one
      token more than it has seen successful refreshes. */
  lemma FamiliesAreChains(cfg: Settings, start: int, run: seq<Action>, f: FamilyId)
    requires Valid(cfg, Initial(start), run)
    ensures var st := Run(cfg, Initial(start), run).store;
            && Chained(st.log)
            && (forall i, j | 0 <= i < j < |st.log| && st.log[i].Rotated? && st.log[j].Rotated? ::
                  st.log[i].presented != st.log[j].presented)
            && (f in st.sessions ==>
                  HeadOf(st.log, f) == Some(st.sessions[f].head) && |TokensOf(st.log, f)| == 1 + Refreshes(st.log, f))
            && (forall h | h in LiveIn(st.rows, f) :: HeadOf(st.log, f) == Some(h))
  {
    assert MintedIn([]) == {};
    RunKeepsLog(cfg, Initial(start), run);
    RunKeeps(cfg, Initial(start), run);
    var log := Run(cfg, Initial(start), run).store.log;
    forall i, j | 0 <= i < j < |log| && log[i].Rotated? && log[j].Rotated?
      ensures log[i].presented != log[j].presented
    {
      MintsOneSuccessor(log, i, j);
    }
    ChainLength(log, f);
  }
}
