/** The alert engine of the bot loop and the two slash commands that edit the
    subscription table. The SQL statements become functions on the `users` map; the
    `Bot` class holds the two tables and its methods run the statements in the
    source's order. */
module Alerts {
  import opened Schema

  type Users = map<UserId, User>

  /** The part of one alert DM that depends on the table: who receives it and the
      threshold quoted in it (the current price is the step's own price). */
  datatype Notification = Notification(id: UserId, thresh: real)

  /** The row filter of the alert query: `? <= thresh AND ? != price`. */
  predicate Triggers(u: User, p: real) {
    p <= u.thresh && u.price != p
  }

  /** The users the alert query selects for price `p`. */
  function TriggerSet(users: Users, p: real): (selected: set<UserId>)
    ensures selected <= users.Keys
    ensures forall id :: id in selected ==> p <= users[id].thresh
  {
    set id | id in users && Triggers(users[id], p)
  }

  /** `UPDATE users SET alerted = TRUE, price = ? WHERE id = ?`, once for every id in `ids`. */
  function MarkAlerted(users: Users, ids: set<UserId>, p: real): (marked: Users)
    ensures marked.Keys == users.Keys
    ensures forall id :: id in marked ==> marked[id].thresh == users[id].thresh
  {
    map id | id in users :: if id in ids then users[id].(alerted := true, price := p) else users[id]
  }

  /** `UPDATE users SET alerted = FALSE WHERE thresh < ?`. */
  function ResetAbove(users: Users, p: real): (reset: Users)
    ensures reset.Keys == users.Keys
    ensures forall id :: id in reset ==> reset[id].thresh == users[id].thresh && reset[id].price == users[id].price
  {
    map id | id in users :: if users[id].thresh < p then users[id].(alerted := false) else users[id]
  }

  /** The users table after one loop step at price `p`: the selected users are marked,
      then every user whose threshold lies below `p` is reset. */
  function AfterStep(users: Users, p: real): (next: Users)
    ensures next.Keys == users.Keys
  {
    ResetAbove(MarkAlerted(users, TriggerSet(users, p), p), p)
  }

  /** `INSERT ... ON CONFLICT(id) DO UPDATE SET thresh, price, alerted` with price 0 and alerted false. */
  function Subscribe(users: Users, id: UserId, thresh: real): (next: Users)
    ensures next.Keys == users.Keys + {id}
  {
    users[id := User(thresh, 0.0, false)]
  }

  /** `DELETE FROM users WHERE id = ?`. */
  function Unsubscribe(users: Users, id: UserId): (next: Users)
    ensures next.Keys == users.Keys - {id}
  {
    users - {id}
  }

  /** The recipients of a list of notifications. */
  function Recipients(sent: seq<Notification>): set<UserId> {
    set i | 0 <= i < |sent| :: sent[i].id
  }

  /** No user is notified twice in one step. */
  predicate DistinctRecipients(sent: seq<Notification>) {
    forall i, j :: 0 <= i < j < |sent| ==> sent[i].id != sent[j].id
  }

  /** Some row of the history already has timestamp `ts`. */
  predicate Recorded(history: seq<Sample>, ts: nat) {
    exists i :: 0 <= i < |history| && history[i].timestamp == ts
  }

  /** The history table's primary key: no two rows share a timestamp. */
  predicate DistinctTimestamps(history: seq<Sample>) {
    forall i, j :: 0 <= i < j < |history| ==> history[i].timestamp != history[j].timestamp
  }

  /** The bot's database: the subscription table and the price history. */
  class Bot {
    var users: Users
    var history: seq<Sample>

    constructor ()
      ensures users == map[] && history == []
    {
      users := map[];
      history := [];
    }

    /** One run of the bot loop with the fetched price `price` at time `now`: store the
        sample, notify every selected user and mark them, then reset the users whose
        threshold the price has risen above. The query returns its rows in no
        particular order, so the loop visits them in an unspecified order.
        The run fails (`failed`) and stops where the failure happens in two cases:
        - a timestamp already in the table violates its primary key, so the insert fails
          before anything else happens;
        - fetching the Discord user or opening the DM channel rejects for a user in
          `unreachable`: the users visited before keep their update, later users are
          not marked, and the reset never runs. */
    method BotLoop(now: nat, price: real, unreachable: set<UserId>) returns (sent: seq<Notification>, failed: bool)
      modifies this
      ensures failed <==> Recorded(old(history), now) || TriggerSet(old(users), price) * unreachable != {}
      ensures Recorded(old(history), now) ==> history == old(history) && users == old(users) && sent == []
      ensures !Recorded(old(history), now) ==> history == old(history) + [Sample(now, price)]
      ensures Recipients(sent) <= TriggerSet(old(users), price) - unreachable
      ensures !failed ==> users == AfterStep(old(users), price) && Recipients(sent) == TriggerSet(old(users), price)
      ensures failed ==> users == MarkAlerted(old(users), Recipients(sent), price)
      ensures DistinctRecipients(sent)
      ensures forall i :: 0 <= i < |sent| ==>
        sent[i].id in old(users) && sent[i].thresh == old(users)[sent[i].id].thresh
      ensures DistinctTimestamps(old(history)) ==> DistinctTimestamps(history)
    {
      if Recorded(history, now) {
        return [], true;
      }
      history := history + [Sample(now, price)];

      var snapshot := users;
      var selected := TriggerSet(snapshot, price);
      var pending := selected;
      sent := [];
      while pending != {}
        invariant history == old(history) + [Sample(now, price)]
        invariant pending <= selected
        invariant users == MarkAlerted(snapshot, selected - pending, price)
        invariant Recipients(sent) == selected - pending
        invariant (selected - pending) * unreachable == {}
        invariant DistinctRecipients(sent)
        invariant forall i :: 0 <= i < |sent| ==>
          sent[i].id in snapshot && sent[i].thresh == snapshot[sent[i].id].thresh
        decreases pending
      {
        var id :| id in pending;
        if id in unreachable {
          assert id in TriggerSet(old(users), price) * unreachable;
          forall x | x in Recipients(sent) ensures x in selected && x !in unreachable {
            assert x in selected - pending;
            assert x !in (selected - pending) * unreachable;
          }
          return sent, true;
        }
        var alert := snapshot[id];
        assert Recipients(sent + [Notification(id, alert.thresh)]) == Recipients(sent) + {id} by {
          var next := sent + [Notification(id, alert.thresh)];
          assert forall i :: 0 <= i < |sent| ==> next[i] == sent[i];
          assert next[|sent|].id == id;
        }
        sent := sent + [Notification(id, alert.thresh)];
        users := users[id := users[id].(alerted := true, price := price)];
        pending := pending - {id};
      }
      assert selected - pending == selected;
      users := ResetAbove(users, price);
      failed := false;
    }

    /** The `pricealert` command. */
    method PriceAlert(id: UserId, thresh: real)
      modifies this
      ensures users == Subscribe(old(users), id, thresh)
      ensures history == old(history)
    {
      users := users[id := User(thresh, 0.0, false)];
    }

    /** The `clearpricealerts` command. */
    method ClearPriceAlerts(id: UserId)
      modifies this
      ensures users == Unsubscribe(old(users), id)
      ensures history == old(history)
    {
      users := users - {id};
    }
  }

  /** The alert query selects exactly the subscribed users whose threshold is at or above
      the price and whose last notified price differs from it. */
  lemma TriggerSetExactly(users: Users, p: real, id: UserId)
    ensures id in TriggerSet(users, p) <==> id in users && p <= users[id].thresh && users[id].price != p
  {
  }

  /** A selected user ends the step alerted at the step's price, threshold untouched. */
  lemma StepMarksSelected(users: Users, p: real, id: UserId)
    requires id in TriggerSet(users, p)
    ensures id in AfterStep(users, p)
    ensures AfterStep(users, p)[id] == User(users[id].thresh, p, true)
  {
  }

  /** A user whose threshold is below the price ends the step with `alerted` false and
      the rest of the row untouched, and is not notified. */
  lemma StepResetsRisen(users: Users, p: real, id: UserId)
    requires id in users && users[id].thresh < p
    ensures id !in TriggerSet(users, p)
    ensures id in AfterStep(users, p)
    ensures AfterStep(users, p)[id] == User(users[id].thresh, users[id].price, false)
  {
  }

  /** A user at or above the price who was already told about this price is left
      exactly as it was and is not notified. */
  lemma StepSkipsSettled(users: Users, p: real, id: UserId)
    requires id in users && p <= users[id].thresh && users[id].price == p
    ensures id !in TriggerSet(users, p)
    ensures id in AfterStep(users, p) && AfterStep(users, p)[id] == users[id]
  {
  }

  /** A step keeps the set of users and every threshold, and leaves every user whose
      threshold is at or above the price with that price as its last price. */
  lemma StepFrame(users: Users, p: real)
    ensures AfterStep(users, p).Keys == users.Keys
    ensures forall id :: id in users ==> AfterStep(users, p)[id].thresh == users[id].thresh
    ensures forall id :: id in users && p <= users[id].thresh ==> AfterStep(users, p)[id].price == p
  {
  }

  /** A run that stops in the alert loop leaves every user whose threshold the price has
      risen above exactly as it was: such a user is never selected, and the reset that
      would clear its `alerted` flag does not run. */
  lemma FailedStepKeepsRisen(users: Users, p: real, notified: set<UserId>, id: UserId)
    requires notified <= TriggerSet(users, p)
    requires id in users && users[id].thresh < p
    ensures id in MarkAlerted(users, notified, p) && MarkAlerted(users, notified, p)[id] == users[id]
  {
    assert id !in notified;
  }

  /** Repeating a step at the same price notifies nobody and changes nothing. */
  lemma StepIdempotent(users: Users, p: real)
    ensures TriggerSet(AfterStep(users, p), p) == {}
    ensures AfterStep(AfterStep(users, p), p) == AfterStep(users, p)
  {
    var once := AfterStep(users, p);
    forall id | id in once
      ensures AfterStep(once, p)[id] == once[id]
    {
      assert users[id].thresh == once[id].thresh;
    }
  }

  /** A user below threshold at two different prices in a row is notified at the second
      one, while a repeat of the first price would notify nobody. */
  lemma NotifiedAgainAtNewPrice(users: Users, id: UserId, p1: real, p2: real)
    requires id in users && p1 <= users[id].thresh && p2 <= users[id].thresh && p1 != p2
    ensures id in TriggerSet(AfterStep(users, p1), p2)
    ensures id !in TriggerSet(AfterStep(users, p1), p1)
  {
  }

  /** The reset on a rise clears `alerted` but keeps the last price, so a later drop back
      to that same price notifies nobody and leaves the user un-alerted below threshold. */
  lemma RiseDoesNotRearmSamePrice(users: Users, id: UserId, p: real, q: real)
    requires id in users && p <= users[id].thresh < q
    ensures var risen := AfterStep(AfterStep(users, p), q);
      && id !in TriggerSet(risen, p)
      && AfterStep(risen, p)[id] == User(users[id].thresh, p, false)
  {
  }

  /** `pricealert` leaves one record for the caller, fresh, and no other row changes. */
  lemma SubscribeSetsOnlyCaller(users: Users, id: UserId, thresh: real)
    ensures Subscribe(users, id, thresh).Keys == users.Keys + {id}
    ensures Subscribe(users, id, thresh)[id] == User(thresh, 0.0, false)
    ensures forall other :: other in users && other != id ==> Subscribe(users, id, thresh)[other] == users[other]
    ensures Subscribe(Subscribe(users, id, thresh), id, thresh) == Subscribe(users, id, thresh)
  {
  }

  /** `clearpricealerts` removes the caller's row only, and a second call changes nothing. */
  lemma UnsubscribeRemovesOnlyCaller(users: Users, id: UserId)
    ensures Unsubscribe(users, id).Keys == users.Keys - {id}
    ensures forall other :: other in users && other != id ==> Unsubscribe(users, id)[other] == users[other]
    ensures Unsubscribe(Unsubscribe(users, id), id) == Unsubscribe(users, id)
  {
  }
}
