/** The check a saved dialogue passes before a planning run resumes from it: the table of call
    ids and tool names, and the receipts looked up in it. */
module PlanningResume {
  import opened Wrappers
  import opened PlanningLoop

  /** The table holds just the ids and names of these calls. */
  predicate Records(table: map<string, string>, calls: seq<Call>) {
    && (forall c :: c in calls && c.id.Some? ==> c.id.value in table && table[c.id.value] == c.name)
    && forall id :: id in table ==> Call(Some(id), table[id]) in calls
  }

  /** Two calls with one id and two names. */
  ghost predicate Conflict(calls: seq<Call>) {
    exists c, d :: c in calls && d in calls && c.id.Some? && c.id == d.id && c.name != d.name
  }

  lemma RecordsHaveNoConflict(table: map<string, string>, calls: seq<Call>)
    requires Records(table, calls)
    ensures !Conflict(calls)
  {
  }

  /** Enters the calls one by one; `None` when an id is met with a second name. */
  method EnterCalls(table: map<string, string>, ghost done: seq<Call>, calls: seq<Call>) returns (r: Option<map<string, string>>)
    requires Records(table, done)
    ensures r.Some? ==> Records(r.value, done + calls)
    ensures r.None? ==> Conflict(done + calls)
  {
    var a := table;
    for i := 0 to |calls|
      invariant Records(a, done + calls[..i])
    {
      var c := calls[i];
      assert done + calls[..i + 1] == (done + calls[..i]) + [c];
      if c.id.Some? {
        if c.id.value in a && a[c.id.value] != c.name {
          var d := Call(c.id, a[c.id.value]);
          assert d in done + calls[..i] && c in calls;
          assert forall x :: x in done + calls[..i] ==> x in done + calls;
          return None;
        }
        a := a[c.id.value := c.name];
      }
    }
    assert calls[..|calls|] == calls;
    r := Some(a);
  }

  /** The calls of the messages in order, then those of the pending response. */
  function CallsOf(messages: seq<Message>): seq<Call> {
    if messages == [] then []
    else CallsOf(messages[..|messages| - 1]) + (if messages[|messages| - 1].Assistant? then messages[|messages| - 1].calls else [])
  }

  function AllCalls(messages: seq<Message>, pending: Option<Response>): seq<Call> {
    CallsOf(messages) + (if pending.Some? then pending.value.calls else [])
  }

  lemma {:induction false} CallsExactly(messages: seq<Message>, c: Call)
    ensures c in CallsOf(messages) <==> exists i :: 0 <= i < |messages| && messages[i].Assistant? && c in messages[i].calls
  {
    if messages != [] {
      CallsExactly(messages[..|messages| - 1], c);
    }
  }

  /** Builds the table from the messages and the pending response. */
  method BuildAssociation(messages: seq<Message>, pending: Option<Response>) returns (r: Option<map<string, string>>)
    ensures r.Some? ==> Records(r.value, AllCalls(messages, pending))
    ensures r.None? ==> Conflict(AllCalls(messages, pending))
  {
    var table: map<string, string> := map[];
    for i := 0 to |messages|
      invariant Records(table, CallsOf(messages[..i]))
    {
      assert messages[..i + 1][..i] == messages[..i];
      if messages[i].Assistant? {
        var entered := EnterCalls(table, CallsOf(messages[..i]), messages[i].calls);
        if entered.None? {
          ConflictLasts(messages, i + 1, pending);
          return None;
        }
        table := entered.value;
      } else {
        assert CallsOf(messages[..i + 1]) == CallsOf(messages[..i]);
      }
    }
    assert messages[..|messages|] == messages;
    if pending.Some? {
      r := EnterCalls(table, CallsOf(messages), pending.value.calls);
    } else {
      r := Some(table);
    }
  }

  lemma ConflictLasts(messages: seq<Message>, n: nat, pending: Option<Response>)
    requires n <= |messages| && Conflict(CallsOf(messages[..n]))
    ensures Conflict(AllCalls(messages, pending))
  {
    forall c | c in CallsOf(messages[..n]) ensures c in AllCalls(messages, pending) {
      CallsExactly(messages[..n], c);
      CallsExactly(messages, c);
    }
  }

  /** The resume check: no id with two names, and every receipt under the id and the name of a
      call. It passes exactly the attributable dialogues. */
  method ResumeCheck(messages: seq<Message>, pending: Option<Response>) returns (passes: bool)
    ensures passes <==> Attributable(messages, pending)
  {
    var table := BuildAssociation(messages, pending);
    var calls := AllCalls(messages, pending);
    forall c ensures c in calls <==> HasCall(messages, pending, c) {
      CallsExactly(messages, c);
    }
    hide HasCall, AllCalls;
    if table.None? {
      return false;
    }
    RecordsHaveNoConflict(table.value, calls);
    for i := 0 to |messages|
      invariant forall k :: 0 <= k < i && messages[k].Tool? ==>
                  HasCall(messages, pending, Call(Some(messages[k].callId), messages[k].name))
    {
      if messages[i].Tool? {
        var id, name := messages[i].callId, messages[i].name;
        if id !in table.value || table.value[id] != name {
          assert Call(Some(id), name) !in calls;
          return false;
        }
        assert Call(Some(id), name) in calls;
      }
    }
    passes := true;
  }
}
