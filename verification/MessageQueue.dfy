// The message list of a PublisherAdapter and its end flag, changed inside messaging_mutex_ (the start
// of a session, which clears the flag, happens before the other thread exists).
//
// Each critical section is a function on the guarded fields; the class does the same in place. The
// interleavings of these sections are the subject of module PublisherLifecycle.
module MessageQueue {
  type Message = nat

  datatype Queue = Queue(messages: seq<Message>, ended: bool)

  function Pushed(q: Queue, m: Message): Queue {
    if q.ended then q else q.(messages := q.messages + [m])
  }

  // What a look at the queue under the lock leads to: sleep, a message, or the end of the thread.
  datatype Look = Sleep | Take(message: Message) | Quit

  function LookAt(q: Queue): Look {
    if q.ended then Quit else if q.messages == [] then Sleep else Take(q.messages[0])
  }

  function Taken(q: Queue): Queue {
    if LookAt(q).Take? then q.(messages := q.messages[1..]) else q
  }

  function StopRequested(q: Queue): Queue {
    q.(ended := true)
  }

  function Drained(q: Queue): Queue {
    q.(messages := [])
  }

  class PublisherAdapter {
    var messages: seq<Message>
    var endFlag: bool

    constructor ()
      ensures View() == Queue([], false)
    {
      messages, endFlag := [], false;
    }

    function View(): Queue
      reads this
    {
      Queue(messages, endFlag)
    }

    // The caller is told whether the condition was broadcast.
    method PushMessage(msg: Message) returns (notified: bool)
      modifies this
      ensures View() == Pushed(old(View()), msg)
      ensures messages == if endFlag then old(messages) else old(messages) + [msg]
      ensures endFlag == old(endFlag)
      ensures notified <==> old(!endFlag)
    {
      notified := !endFlag;
      if !endFlag {
        messages := messages + [msg];
      }
    }

    // PopMessage from one acquisition of the lock to the next wait or to its return.
    method PopMessage() returns (look: Look)
      modifies this
      ensures look == LookAt(old(View())) && View() == Taken(old(View()))
      ensures endFlag == old(endFlag) && (look.Quit? <==> endFlag)
      ensures look.Sleep? <==> !endFlag && old(messages) == []
      ensures old(messages) == if look.Take? then [look.message] + messages else messages
    {
      if messages == [] && !endFlag {
        return Sleep;
      }
      look := Quit;
      if messages != [] && !endFlag {
        look := Take(messages[0]);
        messages := messages[1..];
      }
    }

    method RequestStop()
      modifies this
      ensures View() == StopRequested(old(View()))
      ensures endFlag && messages == old(messages)
    {
      endFlag := true;
    }

    // The end of StopMonitoring: every message left is released, in order.
    method ReleaseRemaining(connection: Connection)
      modifies this, connection
      ensures View() == Drained(old(View()))
      ensures messages == [] && endFlag == old(endFlag)
      ensures connection.released == old(connection.released) + old(messages)
    {
      var i := 0;
      while i < |messages|
        invariant i <= |messages| && View() == old(View())
        invariant connection.released == old(connection.released) + messages[..i]
      {
        connection.ReleaseMessage(messages[i]);
        i := i + 1;
      }
      assert messages[..i] == messages;
      messages := [];
    }
  }

  class Connection {
    var released: seq<Message>

    method ReleaseMessage(msg: Message)
      modifies this
      ensures released == old(released) + [msg]
    {
      released := released + [msg];
    }
  }
}
