// The two client lists and the end flag of ClientAdapterManager, changed only inside its mutex_.
//
// Each critical section is a function on the guarded fields; the class does the same in place. The
// interleavings of these sections are the subject of module ClientLifecycle.
module ClientLists {
  type Client = nat

  datatype Lists = Lists(clients: seq<Client>, released: seq<Client>, ended: bool)

  function Remove(s: seq<Client>, c: Client): seq<Client> {
    if s == [] then []
    else if s[0] == c then s[1..]
    else [s[0]] + Remove(s[1..], c)
  }

  function Count(s: seq<Client>, x: Client): nat {
    if s == [] then 0 else (if s[0] == x then 1 else 0) + Count(s[1..], x)
  }

  lemma {:induction false} CountJoin(a: seq<Client>, b: seq<Client>, x: Client)
    ensures Count(a + b, x) == Count(a, x) + Count(b, x)
  {
    if a == [] {
      assert a + b == b;
    } else {
      assert (a + b)[1..] == a[1..] + b;
      CountJoin(a[1..], b, x);
    }
  }

  lemma CountAdded(s: seq<Client>, c: Client, x: Client)
    ensures Count(s + [c], x) == Count(s, x) + (if c == x then 1 else 0)
  {
    CountJoin(s, [c], x);
  }

  lemma CountEmpty(x: Client)
    ensures Count([], x) == 0
  {
  }

  lemma CountFirst(s: seq<Client>, x: Client)
    requires s != []
    ensures Count(s, x) == (if s[0] == x then 1 else 0) + Count(s[1..], x)
  {
  }

  lemma CountOne(c: Client, x: Client)
    ensures Count([c], x) == if c == x then 1 else 0
  {
    assert [c][1..] == [];
  }

  lemma CountLast(s: seq<Client>, x: Client)
    requires s != []
    ensures Count(s, x) == Count(s[..|s| - 1], x) + (if s[|s| - 1] == x then 1 else 0)
  {
    CountAdded(s[..|s| - 1], s[|s| - 1], x);
    assert s == s[..|s| - 1] + [s[|s| - 1]];
  }

  lemma {:induction false} CountRemoved(s: seq<Client>, c: Client, x: Client)
    ensures Count(Remove(s, c), x) == Count(s, x) - (if c == x && c in s then 1 else 0)
  {
    if s != [] {
      CountRemoved(s[1..], c, x);
      CountPositive(s, x);
    }
  }

  lemma {:induction false} CountPositive(s: seq<Client>, x: Client)
    ensures Count(s, x) > 0 <==> x in s
  {
    if s != [] {
      CountPositive(s[1..], x);
    }
  }

  lemma {:induction false} RemoveLength(s: seq<Client>, c: Client)
    ensures |Remove(s, c)| == if c in s then |s| - 1 else |s|
  {
    if s != [] {
      RemoveLength(s[1..], c);
    }
  }

  lemma {:induction false} RemoveAt(s: seq<Client>, at: nat)
    requires at < |s| && s[at] !in s[..at]
    ensures Remove(s, s[at]) == s[..at] + s[at + 1..]
  {
    if at > 0 {
      assert s[0] in s[..at];
      assert s[1..][..at - 1] == s[..at][1..];
      RemoveAt(s[1..], at - 1);
    }
  }

  lemma {:induction false} RemoveAbsent(s: seq<Client>, c: Client)
    requires c !in s
    ensures Remove(s, c) == s
  {
    if s != [] {
      RemoveAbsent(s[1..], c);
    }
  }

  // Only the first occurrence is gone.
  ghost predicate IsWithoutFirst(now: seq<Client>, before: seq<Client>, c: Client) {
    exists front: seq<Client>, back :: c !in front && before == front + [c] + back && now == front + back
  }

  function Registered(l: Lists, c: Client): Lists {
    if l.ended then l else l.(clients := l.clients + [c])
  }

  function Released(l: Lists, c: Client): Lists {
    if c in l.clients then l.(clients := Remove(l.clients, c), released := l.released + [c]) else l
  }

  function Ended(l: Lists): Lists {
    l.(ended := true)
  }

  function BatchTaken(l: Lists): Lists {
    l.(released := [])
  }

  function LastTaken(l: Lists): Lists
    requires l.clients != []
  {
    l.(clients := l.clients[..|l.clients| - 1])
  }

  // The guarded fields; each method is one critical section.
  class ClientAdapterManager {
    var clients: seq<Client>
    var releaseList: seq<Client>
    var endFlag: bool

    constructor ()
      ensures View() == Lists([], [], false)
    {
      clients, releaseList, endFlag := [], [], false;
    }

    function View(): Lists
      reads this
    {
      Lists(clients, releaseList, endFlag)
    }

    method Register(client: Client)
      modifies this
      ensures View() == Registered(old(View()), client)
      ensures clients == if endFlag then old(clients) else old(clients) + [client]
      ensures releaseList == old(releaseList) && endFlag == old(endFlag)
    {
      if !endFlag {
        clients := clients + [client];
      }
    }

    method Find(client: Client) returns (at: nat)
      ensures at <= |clients| && client !in clients[..at]
      ensures at < |clients| ==> clients[at] == client
    {
      at := 0;
      while at < |clients| && clients[at] != client
        invariant at <= |clients| && client !in clients[..at]
      {
        at := at + 1;
      }
    }

    // The caller is told whether the condition was signalled.
    method Release(client: Client) returns (signalled: bool)
      modifies this
      ensures View() == Released(old(View()), client)
      ensures signalled <==> client in old(clients)
      ensures releaseList == if signalled then old(releaseList) + [client] else old(releaseList)
      ensures signalled ==> IsWithoutFirst(clients, old(clients), client)
      ensures !signalled ==> clients == old(clients)
    {
      var at := Find(client);
      signalled := at < |clients|;
      if signalled {
        RemoveAt(clients, at);
        assert clients == clients[..at] + [client] + clients[at + 1..];
        clients := clients[..at] + clients[at + 1..];
        releaseList := releaseList + [client];
      } else {
        assert clients[..at] == clients;
      }
    }

    // The section of Stop; the condition is signalled in it.
    method RequestStop()
      modifies this
      ensures View() == Ended(old(View()))
      ensures endFlag && clients == old(clients) && releaseList == old(releaseList)
    {
      endFlag := true;
    }

    // The end of the inner loop of Monitor, and of ReleaseAllClients: the list is swapped out.
    method SwapReleaseList() returns (batch: seq<Client>)
      modifies this
      ensures View() == BatchTaken(old(View())) && batch == old(releaseList)
      ensures releaseList == [] && clients == old(clients) && endFlag == old(endFlag)
    {
      batch, releaseList := releaseList, [];
    }

    // One round of the loop of ReleaseAllClients.
    method TakeLast() returns (client: Client)
      requires clients != []
      modifies this
      ensures View() == LastTaken(old(View())) && clients + [client] == old(clients)
      ensures releaseList == old(releaseList) && endFlag == old(endFlag)
    {
      client := clients[|clients| - 1];
      clients := clients[..|clients| - 1];
    }
  }
}
