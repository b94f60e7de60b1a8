/** bbones/planebone/main_plane.c: the static rings, pointers and flag of one logging
    path, and the loop bodies of its two threads. */
module MainPlane {
  import opened Rings
  import opened LoggerProtocol

  class LoggingPath<T(0)> {
    const ping: CircularBuffer<T>
    const pong: CircularBuffer<T>
    var cbRead: CircularBuffer<T>
    var cbWrite: CircularBuffer<T>
    var readingFlag: bool
    var log: seq<T>               // what has been written to the log file
    ghost var accepted: seq<T>
    ghost var offered: nat
    ghost var swaps: nat
    ghost var notReady: nat

    ghost predicate Valid()
      reads this, ping, pong, ping.elems, pong.elems
    {
      && ping != pong && ping.elems != pong.elems
      && ping.Valid() && pong.Valid() && ping.size == pong.size
      && cbRead in {ping, pong} && cbWrite in {ping, pong} && cbRead != cbWrite
    }

    ghost function View(): (s: Link<T>)
      requires Valid()
      reads this, ping, pong, ping.elems, pong.elems
      ensures s.sh.Valid() && s.sh.read != s.sh.write
    {
      var sh := Shared(ping.View(), pong.View(),
                       if cbRead == ping then Ping else Pong,
                       if cbWrite == ping then Ping else Pong, readingFlag);
      Link(sh, log, accepted, offered, swaps, notReady)
    }

    /** The static initialisers, and the two cbInit calls of main. */
    constructor (capacity: nat)
      ensures Valid() && fresh(ping) && fresh(pong) && fresh(ping.elems) && fresh(pong.elems)
      ensures Initial(View(), capacity)
    {
      var a := new CircularBuffer<T>(capacity);
      var b := new CircularBuffer<T>(capacity);
      ping, pong := a, b;
      cbRead, cbWrite := a, b;
      readingFlag := false;
      log := [];
      accepted, offered, swaps, notReady := [], 0, 0, 0;
    }

    /** switch_cb_lisa_pointers, switch_cb_ground_pointers */
    method SwitchPointers()
      requires Valid()
      modifies this`cbRead, this`cbWrite
      ensures Valid() && cbRead == old(cbWrite) && cbWrite == old(cbRead)
    {
      var temp := cbRead;
      cbRead := cbWrite;
      cbWrite := temp;
    }

    /** The branch of the writing thread that stores the frame. */
    method Store(x: T)
      requires Valid() && !View().sh.Get(View().sh.write).IsFull()
      modifies this`accepted, cbWrite, cbWrite.elems
      ensures Valid() && ping.elems == old(ping.elems) && pong.elems == old(pong.elems)
      ensures var s := old(View());
              View() == s.(sh := s.sh.Put(s.sh.write, s.sh.Get(s.sh.write).Write(x)), accepted := s.accepted + [x])
    {
      cbWrite.Write(x);
      accepted := accepted + [x];
    }

    /** One pass of the writing thread for a frame x. The result says whether the LISA
        thread would now call exit; the ground-station thread goes on. */
    method WriterPass(x: T) returns (notReadyNow: bool)
      requires Valid()
      modifies this, ping, pong, ping.elems, pong.elems
      ensures Valid() && ping.elems == old(ping.elems) && pong.elems == old(pong.elems)
      ensures View() == WriterBody(old(View()), x)
      ensures notReadyNow <==> View().notReady == old(View()).notReady + 1
    {
      notReadyNow := false;
      offered := offered + 1;
      var full := cbWrite.IsFull();
      if !full {
        Store(x);
      } else if !readingFlag {
        SwitchPointers();
        swaps := swaps + 1;
      } else {
        notReady := notReady + 1;
        notReadyNow := true;
      }
    }

    /** One pass of the logging thread. */
    method LoggerPass()
      requires Valid()
      modifies this, ping, pong
      ensures Valid() && ping.elems == old(ping.elems) && pong.elems == old(pong.elems)
      ensures View() == LoggerBody(old(View()))
    {
      var empty := cbRead.IsEmpty();
      if !empty {
        readingFlag := true;
        var x := cbRead.Read();
        log := log + [x];
      } else {
        readingFlag := false;
      }
    }

    /** Any schedule of whole passes, from the state main sets up. */
    method Serve(events: seq<Event<T>>)
      requires Valid()
      modifies this, ping, pong, ping.elems, pong.elems
      ensures Valid() && View() == Run(old(View()), events)
    {
      assert events[0..] == events;
      for i := 0 to |events|
        invariant Valid() && ping.elems == old(ping.elems) && pong.elems == old(pong.elems)
        invariant Run(View(), events[i..]) == Run(old(View()), events)
      {
        ghost var rest := events[i..];
        assert rest[0] == events[i] && rest[1..] == events[i + 1..];
        match events[i] {
          case Offer(x) => var _ := WriterPass(x);
          case Poll => LoggerPass();
        }
      }
    }
  }
}
