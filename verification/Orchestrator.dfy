/** The bus and the orchestrator as the objects they are, each method proved
    against the value-level step of Protocol. */
module Orchestration {
  import opened Wrappers
  import opened StateMachine
  import opened Protocol

  class Bus {
    var mail: seq<Msg>
    const maxAttempts: int

    constructor (maxAttempts: int)
      ensures this.maxAttempts == maxAttempts && mail == []
    {
      this.maxAttempts := maxAttempts;
      mail := [];
    }

    method Publish(q: Queue, env: Envelope, call: Call) returns (ok: bool)
      modifies this
      ensures ok == call.Succeeds?
      ensures mail == old(mail) + Posted(if call.Fails? then None else Some((q, env)))
    {
      if !call.Fails? {
        mail := mail + [Msg(Live(q), Parsed(env), 0)];
      }
      ok := call.Succeeds?;
    }

    // The acknowledgement half of handleDelivery
    method Acknowledge(i: nat, ok: bool)
      requires i < |mail| && mail[i].body.Parsed?
      modifies this
      ensures mail == old(mail)[i := Settle(old(mail)[i], ok, maxAttempts)]
    {
      var m := mail[i];
      if ok {
        mail := mail[i := m.(place := Settled)];
        return;
      }
      var count := DeliveryCount(m);
      if count + 1 >= maxAttempts {
        mail := mail[i := Reject(m)];
      } else if m.place.Live? {
        mail := mail[i := m.(count := m.count + 1)];
      } else {
        assert mail[i := m] == mail;
      }
    }
  }

  class Orchestrator {
    const bus: Bus
    var rows: seq<Row>

    constructor (bus: Bus, rows: seq<Row>)
      ensures this.bus == bus && this.rows == rows
    {
      this.bus := bus;
      this.rows := rows;
    }

    function View(): System
      reads this, bus
    {
      System(rows, bus.mail, bus.maxAttempts)
    }

    method HandleEnvelope(env: Envelope, f: Faults) returns (ok: bool)
      modifies this, bus
      ensures var r := Handle(old(rows), env, f);
              rows == r.rows && bus.mail == old(bus.mail) + Posted(r.sent) && ok == r.ok
    {
      if env.submission.Unparsable? || env.submission.n >= |rows| || f.getFails {
        return false;
      }
      var n := env.submission.n;
      var sub := rows[n];
      if env.tenant != sub.tenant {
        return true;
      }
      var ev := StageToEvent(env.stage);
      if ev.None? {
        return false;
      }
      var flags := [];
      if env.stage.STranscribeResult? {
        if f.sidecar.None? {
          return false;
        }
        flags := EvaluateGates(f.sidecar.value, DEFAULT_TUNABLES);
      }
      var next := NextState(sub.state, ev.value, flags);
      if next.None? {
        return false;
      }
      if next.value == sub.state {
        return true;
      }
      if !f.write.Fails? {
        rows := rows[n := sub.(state := next.value)];
      }
      if !f.write.Succeeds? {
        return false;
      }
      ok := DispatchNext(env, sub, next.value, f.publish);
    }

    method DispatchNext(orig: Envelope, sub: Row, state: State, publish: Call) returns (ok: bool)
      modifies bus
      ensures var target := Dispatch(orig, sub, state);
              && bus.mail == old(bus.mail) + Posted(if publish.Fails? then None else target)
              && ok == (target.None? || publish.Succeeds?)
    {
      var target := DispatchTarget(state);
      if target.None? {
        return true;
      }
      var (q, stage) := target.value;
      var payload := orig.payload;
      if state.Queued? && sub.sourcePdf.Some? {
        payload := sub.sourcePdf.value;
      }
      var next := orig.(tenant := sub.tenant, stage := stage, attempt := orig.attempt + 1, payload := payload);
      ok := bus.Publish(q, next, publish);
    }

    method HandleDeadLetter(q: Queue, env: Envelope, f: Faults) returns (ok: bool)
      modifies this
      ensures var r := HandleDead(old(rows), q, env, f); rows == r.rows && ok == r.ok
    {
      if env.submission.Unparsable? || env.submission.n >= |rows| {
        return false;
      }
      if !f.write.Fails? {
        var n := env.submission.n;
        rows := rows[n := rows[n].(state := Failed, failedStage := StageOf(q))];
      }
      ok := f.write.Succeeds?;
    }

    // One delivery to whichever consumer the message's place has: this is the
    // step the theorems of Drain, Token and Gate are about.
    method HandleDelivery(i: nat, f: Faults)
      requires Enabled(View(), Deliver(i, f))
      modifies this, bus
      ensures View() == Step(old(View()), Deliver(i, f))
    {
      var m := bus.mail[i];
      if m.body.Malformed? {
        bus.mail := bus.mail[i := Reject(m)];
        return;
      }
      var ok;
      if m.place.Dead? {
        ok := HandleDeadLetter(m.place.q, m.body.env, f);
      } else if ResultStage(m.place.q).Some? {
        ok := bus.Publish(ResultsQ, m.body.env.(stage := ResultStage(m.place.q).value, payload := f.resultKey), f.work);
      } else {
        ok := HandleEnvelope(m.body.env, f);
      }
      bus.Acknowledge(i, ok);
    }
  }
}
