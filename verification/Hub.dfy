/** The live-session registry and the fetch tickets that share it. */
module Hub {
  import opened Text

  datatype Ticket = Ticket(node: string, sha: string, expires: nat)

  datatype Check = Granted | Bad | Expired | Mismatch

  /** `unregister` drops the entry only when it is the caller's own sender. */
  function Unregistered(senders: map<string, nat>, node: string, session: nat): map<string, nat> {
    if node in senders && senders[node] == session then senders - {node} else senders
  }

  function Live(tickets: map<string, Ticket>, now: nat): map<string, Ticket> {
    map t | t in tickets && tickets[t].expires > now :: tickets[t]
  }

  function CheckOf(tickets: map<string, Ticket>, ticket: string, node: string, sha: string, now: nat): Check {
    if ticket !in tickets then Bad
    else if now >= tickets[ticket].expires then Expired
    else if tickets[ticket].node != node || tickets[ticket].sha != Norm(sha) then Mismatch
    else Granted
  }

  /** A grant needs a record of the ticket, for that node and that digest in its normal form, that has
      not run out; and nothing more. */
  lemma GrantedIff(tickets: map<string, Ticket>, ticket: string, node: string, sha: string, now: nat)
    ensures CheckOf(tickets, ticket, node, sha, now) == Granted
      <==> exists expires :: now < expires && ticket in tickets && tickets[ticket] == Ticket(node, Norm(sha), expires)
  {
    if CheckOf(tickets, ticket, node, sha, now) == Granted {
      assert tickets[ticket] == Ticket(node, Norm(sha), tickets[ticket].expires);
    }
  }

  class Hub {
    var senders: map<string, nat>
    var tickets: map<string, Ticket>

    constructor ()
      ensures senders == map[] && tickets == map[]
    {
      senders, tickets := map[], map[];
    }

    method Register(node: string, session: nat)
      modifies this`senders
      ensures senders == old(senders)[node := session]
    {
      senders := senders[node := session];
    }

    method Unregister(node: string, session: nat)
      modifies this`senders
      ensures senders == Unregistered(old(senders), node, session)
      ensures node in senders ==> senders[node] != session
      ensures forall n :: n != node ==> (n in senders <==> n in old(senders)) && (n in senders ==> senders[n] == old(senders)[n])
    {
      if node in senders {
        if senders[node] == session {
          senders := senders - {node};
        }
      }
    }

    /** `ticket` is a fresh random id; issuing also purges what has expired. */
    method IssueTicket(ticket: string, node: string, sha: string, now: nat, ttl: nat)
      requires ticket !in tickets
      modifies this`tickets
      ensures tickets == Live(old(tickets), now)[ticket := Ticket(node, Norm(sha), now + ttl)]
      ensures forall at :: now <= at < now + ttl ==> CheckOf(tickets, ticket, node, sha, at) == Granted
      ensures forall t, n, s, at :: at >= now && t != ticket ==>
        (CheckOf(tickets, t, n, s, at) == Granted <==> CheckOf(old(tickets), t, n, s, at) == Granted)
    {
      tickets := Live(tickets, now);
      tickets := tickets[ticket := Ticket(node, Norm(sha), now + ttl)];
    }

    /** Granted exactly to the node and package the live ticket was issued for, however the digest is written. */
    method CheckTicket(ticket: string, node: string, sha: string, now: nat) returns (r: Check)
      modifies this`tickets
      ensures r == CheckOf(old(tickets), ticket, node, sha, now)
      ensures tickets == if r == Expired then old(tickets) - {ticket} else old(tickets)
      ensures forall t, n, s, at :: at >= now ==>
        (CheckOf(tickets, t, n, s, at) == Granted <==> CheckOf(old(tickets), t, n, s, at) == Granted)
    {
      if ticket !in tickets {
        return Bad;
      }
      var rec := tickets[ticket];
      if now >= rec.expires {
        tickets := tickets - {ticket};
        return Expired;
      }
      if rec.node != node || rec.sha != Norm(sha) {
        return Mismatch;
      }
      return Granted;
    }
  }
}
