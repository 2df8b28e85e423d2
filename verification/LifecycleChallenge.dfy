/**
 Which challenge a submission asks the CA to validate. The record remembers the
 value the user was told to publish, the ACME client remembers a challenge of
 its own, and they are written by different steps: the CA sees the looked-up
 value only if nothing has replaced the client's challenge since.
 */
module LifecycleChallenge {
  import opened Basics
  import opened Lifecycle
  import opened LifecycleEffects
  import LifecycleSafety
  import A = AcmeClient
  import C = CertStore

  /** The record of the challenge the client holds for a name: what it would have the CA look for. */
  function HeldRecord(c: A.Client, name: string): Option<Option<string>> {
    if name in c.challenges then Some(c.challenges[name].record) else None
  }

  /** What a call says about the challenge held for a name. */
  datatype Word = Keeps | Sets(record: Option<string>) | Drops

  function Hear(held: Option<Option<string>>, word: Word): Option<Option<string>> {
    match word
    case Keeps => held
    case Sets(record) => Some(record)
    case Drops => None
  }

  /**
   A request sets the challenge when it reaches an order with a dns-01
   challenge, even if its record is not written.
   */
  function AskWord(c: A.Client, a: A.OrderAnswers): Word {
    if (c.registered || a.registers) && A.Fruitful(a) then Sets(a.record) else Keeps
  }

  /** A restart and an issued certificate drop the challenge, a request may set it. */
  function WordOf(w: World, call: Call, name: string): Word {
    if call.CallRestart? then Drops
    else if call.CallCreate? || call.CallDelete? || call.id !in w.domains || w.domains[call.id].name != name then Keeps
    else if Obtains(w, call).Some? then Drops
    else if AskOf(w, call).Some? then AskWord(w.client, AskOf(w, call).value)
    else Keeps
  }

  // --------------------------------------------------------------- one call

  lemma AskHeard(c: A.Client, d: string, a: A.OrderAnswers, name: string)
    ensures HeldRecord(A.GetDNSChallenge(c, d, a).0, name) ==
            Hear(HeldRecord(c, name), if name == d then AskWord(c, a) else Keeps)
  {
  }

  lemma IssueHeard(c: A.Client, d: string, a: A.IssueAnswers, name: string)
    ensures var (t, bundle) := A.RequestCertificate(c, d, a);
            HeldRecord(t, name) == if name == d && bundle.Some? then None else HeldRecord(c, name)
  {
    hide A.MakeBundle;
  }

  /** A call changes the challenge held for a name as its word says. */
  lemma StepHeard(w: World, call: Call, name: string)
    ensures HeldRecord(Step(w, call).client, name) == Hear(HeldRecord(w.client, name), WordOf(w, call, name))
  {
    hide HeldRecord, AskWord, A.GetDNSChallenge, A.RequestCertificate, A.Complete;
    if call.CallRestart? {
      NothingHeld(name);
    } else {
      hide Step;
      if AskOf(w, call).Some? && call.id in w.domains {
        AskHeard(w.client, w.domains[call.id].name, AskOf(w, call).value, name);
      }
      if call.CallSubmit? {
        SubmitEffects(w, call);
        if call.id in w.domains {
          IssueHeard(w.client, w.domains[call.id].name, call.submit.issue, name);
        }
      } else if call.CallRenew? {
        RenewEffects(w, call);
        if call.id in w.domains {
          IssueHeard(Ordered(w, call), w.domains[call.id].name, call.renew.issue, name);
        }
      } else {
        OtherEffects(w, call);
      }
    }
  }

  lemma NothingHeld(name: string)
    ensures HeldRecord(A.NEW_CLIENT, name) == None
  {
  }

  // ------------------------------------------------------------------- runs

  /** What call i of the run says. */
  function WordAt(store: Option<C.Store>, calls: seq<Call>, i: int, name: string): Word
    requires 0 <= i < |calls|
  {
    WordOf(Run(Fresh(store), calls[..i]), calls[i], name)
  }

  /** Call i sets the challenge to one with this record, and no later call says anything about it. */
  ghost predicate LastSet(store: Option<C.Store>, calls: seq<Call>, i: int, name: string, v: string) {
    && 0 <= i < |calls| && WordAt(store, calls, i, name) == Sets(Some(v))
    && forall j :: i < j < |calls| ==> WordAt(store, calls, j, name) == Keeps
  }

  lemma LastSetGrows(store: Option<C.Store>, calls: seq<Call>, i: int, name: string, v: string)
    requires calls != []
    ensures var n := |calls| - 1;
            LastSet(store, calls, i, name, v) <==>
              (i == n && WordAt(store, calls, n, name) == Sets(Some(v)))
              || (LastSet(store, calls[..n], i, name, v) && WordAt(store, calls, n, name) == Keeps)
  {
    hide WordOf, Run;
    var n := |calls| - 1;
    forall j | 0 <= j < n
      ensures WordAt(store, calls[..n], j, name) == WordAt(store, calls, j, name)
    {
      assert calls[..n][..j] == calls[..j];
    }
  }

  /** The client holds a challenge with record v exactly when the last word on it in the run set v. */
  lemma {:induction false} HeldExactly(store: Option<C.Store>, calls: seq<Call>, name: string, v: string)
    ensures HeldRecord(Run(Fresh(store), calls).client, name) == Some(Some(v)) <==>
            exists i :: LastSet(store, calls, i, name, v)
    decreases |calls|
  {
    if calls == [] {
      NothingHeld(name);
    } else {
      hide Run, WordOf, HeldRecord, LastSet, Step;
      var n := |calls| - 1;
      HeldExactly(store, calls[..n], name, v);
      assert calls == calls[..n] + [calls[n]];
      RunThen(Fresh(store), calls[..n], calls[n]);
      StepHeard(Run(Fresh(store), calls[..n]), calls[n], name);
      forall i
        ensures LastSet(store, calls, i, name, v) <==>
                  (i == n && WordAt(store, calls, n, name) == Sets(Some(v)))
                  || (LastSet(store, calls[..n], i, name, v) && WordAt(store, calls, n, name) == Keeps)
      {
        LastSetGrows(store, calls, i, name, v);
      }
      if WordAt(store, calls, n, name) == Sets(Some(v)) {
        assert LastSet(store, calls, n, name, v);
      }
    }
  }

  /**
   In every run, for a domain ready to submit: the stored value has been looked
   up, and the challenge a submission has the CA validate is the one with that
   value exactly when the last word on the client's challenge set it. A request
   whose record could not be written, a renewal, an issued certificate and a
   restart all say something.
   */
  lemma SubmittedIsLookedUpExactly(store: Option<C.Store>, calls: seq<Call>, id: nat)
    requires var w := Run(Fresh(store), calls); id in w.domains && w.domains[id].status.ACMEChallengeReady?
    ensures var w := Run(Fresh(store), calls);
            var d := w.domains[id];
            && LifecycleSafety.Vouched(w.log, id, d.value)
            && (HeldRecord(w.client, d.name) == Some(Some(d.value)) <==>
                exists i :: LastSet(store, calls, i, d.name, d.value))
  {
    hide Run, HeldRecord, LastSet;
    LifecycleSafety.ReadyMeansLookedUp(store, calls);
    var d := Run(Fresh(store), calls).domains[id];
    HeldExactly(store, calls, d.name, d.value);
  }

  /** A request whose record cannot be written: the client holds the new challenge, the record the old one. */
  lemma LostRequestParts(w: World, id: nat, e: RequestEnv)
    requires id in w.domains && w.domains[id].status.DNSVerified? && e.read && !e.write
    requires (w.client.registered || e.answers.registers) && A.Fruitful(e.answers)
    ensures var t := RequestACMEChallenge(w, id, true, e);
            && t.domains == w.domains
            && HeldRecord(t.client, w.domains[id].name) == Some(e.answers.record)
  {
    AskHeard(w.client, w.domains[id].name, e.answers, w.domains[id].name);
  }
}
