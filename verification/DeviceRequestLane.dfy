/**
 * The device request lane: one submission at a time over all request references, held for a
 * reference as long as its journalled request may be unanswered. A request that is signed
 * takes the next sequence number, so no other may be outstanding when it is signed.
 */
module DeviceRequestLane {
  import opened Basics
  import opened ReplayLog
  import opened TransportReplay

  /** Free, held for one reference, or held for none that exists. */
  datatype Pin = Free | Held(reference: string) | FailClosed

  datatype Submission = Submission(reference: string, call: Call)

  class DeviceRequestLane {
    const transports: map<string, Transport>
    var pin: Pin

    /** Each reference has its own journal entry and its own log. */
    ghost predicate Separate()
      reads this
    {
      forall r <- transports, q <- transports :: r != q ==> transports[r] != transports[q]
    }

    ghost predicate Valid()
      reads this, transports.Values
    {
      Separate() && forall r <- transports :: transports[r].Valid()
    }

    /** The lane is held for whatever is unanswered, or for everyone. */
    ghost predicate Fenced()
      reads this, transports.Values
    {
      forall r <- transports :: Unanswered(transports[r].journal) ==> pin == Held(r) || pin == FailClosed
    }

    /** Nothing but `r` is unanswered. */
    ghost predicate OnlyUnanswered(r: string)
      reads this, transports.Values
    {
      forall q <- transports :: q != r ==> !Unanswered(transports[q].journal)
    }

    /** The journal holds a request of `r` and of no other reference. */
    ghost predicate OnlyJournalled(r: string)
      reads this, transports.Values
    {
      r in transports && forall q <- transports :: transports[q].journal.Some? <==> q == r
    }

    predicate Refuses(r: string)
      reads this`pin
    {
      pin != Free && pin != Held(r)
    }

    constructor (transports: map<string, Transport>)
      requires forall r <- transports, q <- transports :: r != q ==> transports[r] != transports[q]
      requires forall r <- transports :: transports[r].Valid() && transports[r].journal == None
      ensures Valid() && Fenced() && this.transports == transports
    {
      this.transports, pin := transports, Free;
    }

    /** run: a request outside the journal, such as a heartbeat. */
    method Run() returns (admitted: bool)
      requires Valid() && Fenced()
      ensures admitted <==> pin == Free
      ensures admitted ==> forall r <- transports :: !Unanswered(transports[r].journal)
    {
      return pin == Free;
    }

    /** runPinned: refused while the lane is held for another reference. */
    method RunPinned(reference: string, call: Call, calledAt: nat, candidate: Request)
      returns (end: End, ghost found: Option<JournalRecord>, ghost reply: Option<Response>)
      requires Valid() && Fenced() && reference in transports
      requires calledAt <= transports[reference].cancellationEpoch
      modifies this`pin, transports[reference]
      ensures Valid() && Fenced()
      ensures old(Refuses(reference)) ==>
        end == Failed && pin == old(pin) && transports[reference].log == old(transports[reference].log)
      ensures !old(Refuses(reference)) ==> old(OnlyUnanswered(reference)) && OnlyUnanswered(reference)
      ensures !old(Refuses(reference)) ==>
        old(transports[reference].log) + [Entered(call, calledAt)] <= transports[reference].log
      ensures !old(Refuses(reference)) && transports[reference].Undisturbed(old(transports[reference].faults), calledAt) ==>
        Served(call, candidate, found, reply, end, |old(transports[reference].log)|, transports[reference].log)
      ensures !old(Refuses(reference)) ==> pin == Free || pin == Held(reference)
      ensures end.Delivered? && end.answer.Success? ==> pin == Free
      ensures !old(Refuses(reference)) && pin.Held? ==>
        Unanswered(transports[reference].journal) || old(transports[reference].faults) < transports[reference].faults
    {
      hide Lawful, Replay, Agrees, Served, Since;
      found, reply := None, None;
      if Refuses(reference) {
        return Failed, found, reply;
      }
      var transport := transports[reference];
      end, found, reply := transport.Submit(call, calledAt, candidate);
      if end.Delivered? && end.answer.Success? {
        pin := Free;
        return;
      }
      if end.HookFailed? {
        pin := Held(reference);
        return;
      }
      ghost var served := transport.log;
      var loaded := transport.Load();
      if Served(call, candidate, found, reply, end, |old(transports[reference].log)|, served) {
        ServedStays(call, candidate, found, reply, end, |old(transports[reference].log)|, served, transport.log);
      }
      pin := if loaded.Unreadable? || Unanswered(loaded.record) then Held(reference) else Free;
    }

    /** Startup after a crash: the lane is held for the one journalled request, or for everyone. */
    method Restart(listed: bool)
      requires Valid()
      modifies this`pin, transports.Values
      ensures Valid() && Fenced()
      ensures pin.Free? <==> listed && forall r <- transports :: transports[r].journal.None?
      ensures forall r :: pin == Held(r) <==> listed && OnlyJournalled(r)
      ensures forall r <- transports :: transports[r].journal == old(transports[r].journal)
      ensures forall r <- transports :: transports[r].log == old(transports[r].log) + [Restarted]
    {
      hide Lawful, Replay, Agrees;
      var rest := transports.Keys;
      while rest != {}
        invariant rest <= transports.Keys && Valid()
        invariant forall r <- transports :: transports[r].journal == old(transports[r].journal)
        invariant forall r <- transports ::
          transports[r].log == if r in rest then old(transports[r].log) else old(transports[r].log) + [Restarted]
        decreases rest
      {
        var r: string :| r in rest;
        transports[r].Restart();
        rest := rest - {r};
      }
      RestorePin(listed);
    }

    /** restoreDesktopDeviceRequestJournalPin, over what the journal lists. */
    method RestorePin(listed: bool)
      requires Valid()
      modifies this`pin
      ensures Valid() && Fenced()
      ensures pin.Free? <==> listed && forall r <- transports :: transports[r].journal.None?
      ensures forall r :: pin == Held(r) <==> listed && OnlyJournalled(r)
    {
      hide Lawful, Replay, Agrees;
      var records := set r <- transports | transports[r].journal.Some? :: r;
      assert forall r :: r in records <==> r in transports && transports[r].journal.Some?;
      if !listed {
        pin := FailClosed;
      } else if records == {} {
        pin := Free;
        assert forall r <- transports :: r !in records;
      } else {
        var r: string :| r in records;
        pin := if records == {r} then Held(r) else FailClosed;
        if records == {r} {
          assert forall q <- transports :: q in records <==> q == r;
          assert OnlyJournalled(r);
        } else {
          var q: string :| q in records && q != r;
          forall x ensures !OnlyJournalled(x) {
            assert q in records && r in records;
          }
        }
      }
    }

    /** Any number of submissions, cancellations, completions and restarts, over all references. */
    method Serve(submissions: seq<Submission>)
      requires Valid() && Fenced()
      modifies this`pin, transports.Values
      ensures Valid() && Fenced()
      ensures forall r <- transports :: old(transports[r].log) <= transports[r].log
    {
      hide Lawful, Replay, Agrees;
      for i := 0 to |submissions|
        invariant Valid() && Fenced()
        invariant forall r <- transports :: old(transports[r].log) <= transports[r].log
      {
        Meanwhile();
        var reference := submissions[i].reference;
        if reference in transports {
          var calledAt: nat := *;
          if calledAt <= transports[reference].cancellationEpoch {
            var candidate: Request := *;
            ghost var found, reply;
            var end;
            end, found, reply := RunPinned(reference, submissions[i].call, calledAt, candidate);
          }
        }
        var crashed: bool, listed: bool := *, *;
        if crashed {
          Restart(listed);
        }
      }
    }

    /** What other code does to some reference while the lane is idle. */
    method Meanwhile()
      requires Valid() && Fenced()
      modifies transports.Values
      ensures Valid() && Fenced()
      ensures forall r <- transports :: old(transports[r].log) <= transports[r].log
    {
      hide Lawful, Replay, Agrees;
      var reference: string := *;
      if reference in transports {
        var idle := transports[reference].Await();
      }
    }
  }
  lemma ServedStays(call: Call, candidate: Request, found: Option<JournalRecord>, reply: Option<Response>, end: End,
      start: nat, before: seq<Item>, after: seq<Item>)
    requires Served(call, candidate, found, reply, end, start, before) && before <= after
    ensures Served(call, candidate, found, reply, end, start, after)
  {
    hide Says, Usable;
    forall item | Since(start, before, item) ensures Since(start, after, item) {
      var k :| start <= k < |before| && before[k] == item;
      assert after[k] == item;
    }
  }
}
