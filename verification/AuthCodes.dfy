/**
 The one-minute authorization codes of camp44/api/v1/endpoints/auth.py: `_create_auth_code`,
 `_cleanup_expired_codes` and `exchange_code`. Each call runs under the module lock; monotonic
 clock readings and the drawn code are parameters.
 */
module AuthCodes {
  import opened Wrappers
  import opened SingleUse

  const CODE_TTL := 60

  datatype Tokens = Tokens(access: string, refresh: string)

  /** Entries are stamped with their creation, and live for up to and including 60 seconds. */
  function Recent(): Liveness {
    (created: int, now: int) => now - created <= CODE_TTL
  }

  class AuthCodes {
    var codes: Table<string, Tokens>

    constructor ()
      ensures codes == map[]
    {
      codes := map[];
    }

    /** `del`, which fails on an absent key. */
    method Delete(code: string)
      requires code in codes
      modifies this
      ensures codes == old(codes) - {code}
    {
      codes := codes - {code};
    }

    /** Removes the old codes one by one; every code it deletes is there to be deleted. */
    method CleanupExpired(now: int)
      modifies this
      ensures codes == Step(Recent(), old(codes), Purge(now))
      ensures forall k | k in old(codes) :: k in codes <==> now - old(codes)[k].stamp <= 60
      ensures forall k | k in codes :: k in old(codes) && codes[k] == old(codes)[k]
    {
      var expired := set k | k in codes && now - codes[k].stamp > CODE_TTL;
      var todo := expired;
      while todo != {}
        invariant todo <= expired
        invariant codes == old(codes) - (expired - todo)
        decreases todo
      {
        var k :| k in todo;
        Delete(k);
        todo := todo - {k};
      }
    }

    method Create(code: string, tokens: Tokens, cleanedAt: int, now: int)
      modifies this
      ensures codes == Do(old(codes), Operation.Create(code, tokens, cleanedAt, now))
      ensures codes[code] == Entry(tokens, now)
      ensures forall k | k in codes && k != code ::
                k in old(codes) && codes[k] == old(codes)[k] && cleanedAt - codes[k].stamp <= 60
    {
      CleanupExpired(cleanedAt);
      codes := codes[code := Entry(tokens, now)];
    }

    method Exchange(code: string, now: int) returns (tokens: Option<Tokens>)
      modifies this
      ensures tokens == Redeemed(old(codes), code, now)
      ensures codes == Do(old(codes), Operation.Exchange(code, now))
      ensures code !in codes && forall k | k in codes :: k in old(codes) && codes[k] == old(codes)[k]
    {
      CleanupExpired(now);
      tokens := if code in codes then Some(codes[code].value) else None;
      codes := codes - {code};
    }
  }

  // ---------------------------------------------------------------------------------------
  // Traces of operations.
  // ---------------------------------------------------------------------------------------

  datatype Operation =
    | Create(code: string, tokens: Tokens, cleanedAt: int, now: int)
    | Exchange(code: string, now: int)

  function Do(codes: Table<string, Tokens>, op: Operation): Table<string, Tokens> {
    match op
    case Create(code, tokens, cleanedAt, now) => Step(Recent(), codes, Purge(cleanedAt))[code := Entry(tokens, now)]
    case Exchange(code, now) => Step(Recent(), codes, Purge(now)) - {code}
  }

  /** The reply of an exchange: the stored tokens, or nothing for a 400. */
  function Redeemed(codes: Table<string, Tokens>, code: string, now: int): Option<Tokens> {
    var kept := Step(Recent(), codes, Purge(now));
    if code in kept then Some(kept[code].value) else None
  }

  function After(ops: seq<Operation>): Table<string, Tokens> {
    if ops == [] then map[] else Do(After(ops[..|ops| - 1]), ops[|ops| - 1])
  }

  function FirstReading(op: Operation): int {
    if op.Create? then op.cleanedAt else op.now
  }

  /** The clock never goes back from one reading to the next, and has not passed `until`. */
  ghost predicate Clocked(ops: seq<Operation>, until: int) {
    ops == []
    || (var last := ops[|ops| - 1];
        FirstReading(last) <= last.now <= until && Clocked(ops[..|ops| - 1], FirstReading(last)))
  }

  function Events(op: Operation): seq<Event<string, Tokens>> {
    match op
    case Create(code, tokens, cleanedAt, now) => [Purge(cleanedAt)] + [Put(code, tokens, now)]
    case Exchange(code, now) => [Purge(now)] + [Take(code, now)]
  }

  function AllEvents(ops: seq<Operation>): seq<Event<string, Tokens>> {
    if ops == [] then [] else AllEvents(ops[..|ops| - 1]) + Events(ops[|ops| - 1])
  }

  lemma DoIsEvents(codes: Table<string, Tokens>, op: Operation)
    ensures Do(codes, op) == End(Recent(), codes, Events(op))
  {
    var e := Events(op);
    assert e[..1] == [e[0]] && e[..1][..0] == [];
    assert End(Recent(), codes, e[..1]) == Step(Recent(), codes, e[0]);
  }

  lemma {:induction false} AfterIsEvents(ops: seq<Operation>, until: int)
    requires Clocked(ops, until)
    ensures After(ops) == End(Recent(), map[], AllEvents(ops)) && Timely(AllEvents(ops), until)
    decreases |ops|
  {
    if ops != [] {
      var init, op := ops[..|ops| - 1], ops[|ops| - 1];
      AfterIsEvents(init, FirstReading(op));
      DoIsEvents(After(init), op);
      EndAppend(Recent(), map[], AllEvents(init), Events(op));
      TimelyPlus(AllEvents(init), FirstReading(op), Some(Events(op)[0].now), Some(Events(op)[1]), until);
    }
  }

  /** The creation at `i` is the last operation on its code. */
  ghost predicate CreatedLast(ops: seq<Operation>, i: nat, code: string) {
    i < |ops| && ops[i].Create? && ops[i].code == code && forall j | i < j < |ops| :: ops[j].code != code
  }

  lemma AnswerReadsOperations(ops: seq<Operation>, code: string, now: int)
    ensures var answer := Answer(Recent(), AllEvents(ops), code, now);
            if ops == [] then answer == None
            else
              var last := ops[|ops| - 1];
              answer ==
                if last.code != code then Answer(Recent(), AllEvents(ops[..|ops| - 1]), code, now)
                else if last.Create? && now - last.now <= 60 then Some(last.tokens)
                else None
  {
    if ops != [] {
      var past, e := AllEvents(ops[..|ops| - 1]), Events(ops[|ops| - 1]);
      assert past + e == (past + [e[0]]) + [e[1]];
      AnswerAfterOne(Recent(), past, e[0]);
      AnswerAfterOne(Recent(), past + [e[0]], e[1]);
    }
  }

  lemma LastCreationOfPrefix(ops: seq<Operation>, code: string)
    requires ops != []
    ensures var n := |ops| - 1;
            if ops[n].code == code then forall i: nat :: CreatedLast(ops, i, code) <==> i == n && ops[n].Create?
            else forall i: nat :: CreatedLast(ops, i, code) <==> CreatedLast(ops[..n], i, code)
  {
    var n := |ops| - 1;
    assert forall j | 0 <= j < n :: ops[..n][j] == ops[j];
  }

  lemma {:induction false} AnswerIsLastCreation(ops: seq<Operation>, code: string, now: int, tokens: Tokens)
    ensures Answer(Recent(), AllEvents(ops), code, now) == Some(tokens)
            <==> exists i: nat :: CreatedLast(ops, i, code) && ops[i].tokens == tokens && now - ops[i].now <= 60
    decreases |ops|
  {
    AnswerReadsOperations(ops, code, now);
    if ops != [] {
      var n := |ops| - 1;
      LastCreationOfPrefix(ops, code);
      if ops[n].code == code {
        if ops[n].Create? { assert CreatedLast(ops, n, code); }
      } else {
        AnswerIsLastCreation(ops[..n], code, now, tokens);
        forall i: nat | CreatedLast(ops[..n], i, code) ensures CreatedLast(ops, i, code) && ops[..n][i] == ops[i] {}
        forall i: nat | CreatedLast(ops, i, code) ensures CreatedLast(ops[..n], i, code) && ops[..n][i] == ops[i] {}
      }
    }
  }

  /** Over every run, an exchange returns a token pair exactly when the code was created with that
      pair, has not been exchanged (or created) since, and is at most 60 seconds old. */
  lemma ExchangeIff(ops: seq<Operation>, code: string, now: int, tokens: Tokens)
    requires Clocked(ops + [Exchange(code, now)], now)
    ensures Redeemed(After(ops), code, now) == Some(tokens)
            <==> exists i: nat :: CreatedLast(ops, i, code) && ops[i].tokens == tokens && now - ops[i].now <= 60
  {
    assert (ops + [Exchange(code, now)])[..|ops|] == ops;
    AfterIsEvents(ops, now);
    TableAnswersHistory(Recent(), AllEvents(ops), now, code, now);
    AnswerIsLastCreation(ops, code, now, tokens);
  }

  /** Drawn codes never repeat. */
  ghost predicate CodesAreFresh(ops: seq<Operation>) {
    forall i, j | 0 <= i < j < |ops| && ops[i].Create? && ops[j].Create? :: ops[i].code != ops[j].code
  }

  lemma {:induction false} ClockedPrefix(ops: seq<Operation>, until: int, i: nat)
    requires i < |ops| && Clocked(ops, until)
    ensures Clocked(ops[..i] + [ops[i]], ops[i].now)
    decreases |ops|
  {
    var n := |ops| - 1;
    if i == n {
      assert (ops[..n] + [ops[n]])[..n] == ops[..n];
    } else {
      ClockedPrefix(ops[..n], FirstReading(ops[n]), i);
      assert ops[..n][..i] == ops[..i];
    }
  }

  /** A code redeemed twice was created twice, the second time between the two. */
  lemma RedeemedTwiceIsCreatedTwice(ops: seq<Operation>, until: int, i: nat, j: nat) returns (a: nat, b: nat)
    requires Clocked(ops, until)
    requires i < j < |ops| && ops[i].Exchange? && ops[j].Exchange? && ops[i].code == ops[j].code
    requires Redeemed(After(ops[..i]), ops[i].code, ops[i].now).Some?
    requires Redeemed(After(ops[..j]), ops[j].code, ops[j].now).Some?
    ensures a < i < b < j && ops[a].Create? && ops[b].Create? && ops[a].code == ops[b].code == ops[i].code
  {
    ClockedPrefix(ops, until, i);
    ClockedPrefix(ops, until, j);
    ExchangeIff(ops[..i], ops[i].code, ops[i].now, Redeemed(After(ops[..i]), ops[i].code, ops[i].now).value);
    ExchangeIff(ops[..j], ops[j].code, ops[j].now, Redeemed(After(ops[..j]), ops[j].code, ops[j].now).value);
    a :| CreatedLast(ops[..i], a, ops[i].code);
    b :| CreatedLast(ops[..j], b, ops[j].code);
    assert ops[..j][i] == ops[i];
  }

  /** Each code is redeemed at most once. */
  lemma RedeemedOnce(ops: seq<Operation>, until: int, i: nat, j: nat)
    requires Clocked(ops, until) && CodesAreFresh(ops)
    requires i < j < |ops| && ops[i].Exchange? && ops[j].Exchange? && ops[i].code == ops[j].code
    requires Redeemed(After(ops[..i]), ops[i].code, ops[i].now).Some?
    ensures Redeemed(After(ops[..j]), ops[j].code, ops[j].now) == None
  {
    if Redeemed(After(ops[..j]), ops[j].code, ops[j].now).Some? {
      var a, b := RedeemedTwiceIsCreatedTwice(ops, until, i, j);
      assert false;
    }
  }
}
