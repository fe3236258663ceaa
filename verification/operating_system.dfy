/** What the library asks of the operating system: descriptors and heap blocks. Every call may fail
    where the real one may. Closing or freeing something that is not there is ruled out by the
    preconditions, so a program that verifies does neither. */
module OperatingSystem {

  datatype Connection = Connected | Refused | Failed

  lemma {:induction false} BoundExists(s: set<nat>) returns (bound: nat)
    ensures forall x | x in s :: x < bound
  {
    bound := 0;
    if s == {} {
    } else {
      var x: nat :| x in s;
      var b := BoundExists(s - {x});
      bound := if b > x then b else x + 1;
      forall y | y in s ensures y < bound {
        assert y == x || y in s - {x};
      }
    }
  }

  lemma UnusedExists(s: set<nat>)
    ensures exists n: nat :: n > 0 && n !in s
  {
    var b := BoundExists(s);
    assert b + 1 !in s;
  }

  class Host {
    var open: set<nat>
    var listening: set<nat>
    var blocks: set<nat>
    ghost var served: seq<nat>   // the links whose handlers were called, by address, in order
    ghost var failed: nat        // how often socket or listen has failed

    /** Descriptor 0 is in use: the library takes it to mean that there is no connection. */
    ghost predicate Valid()
      reads this
    {
      0 in open && listening <= open
    }

    method Socket() returns (fd: int)
      requires Valid()
      modifies this`open, this`failed
      ensures Valid()
      ensures fd == -1 ==> open == old(open) && failed == old(failed) + 1
      ensures fd != -1 ==> fd > 0 && fd !in old(open) && open == old(open) + {fd} && failed == old(failed)
    {
      if * {
        failed := failed + 1;
        return -1;
      }
      UnusedExists(open);
      var unused: nat :| unused > 0 && unused !in open;
      fd := unused;
      open := open + {fd};
    }

    method Listen(fd: nat) returns (ok: bool)
      requires Valid() && fd in open
      modifies this`listening, this`failed
      ensures Valid()
      ensures listening == if ok then old(listening) + {fd} else old(listening)
      ensures failed == if ok then old(failed) else old(failed) + 1
    {
      ok := *;
      if ok {
        listening := listening + {fd};
      } else {
        failed := failed + 1;
      }
    }

    /** -1 with again set for a timeout. */
    method Accept(fd: nat) returns (conn: int, again: bool)
      requires Valid() && fd in open
      modifies this`open
      ensures Valid()
      ensures conn == -1 ==> open == old(open)
      ensures conn != -1 ==> fd in listening && conn > 0 && conn !in old(open) && open == old(open) + {conn}
    {
      var broken: bool := *;
      again := *;
      if fd !in listening || again || broken {
        return -1, again;
      }
      UnusedExists(open);
      var unused: nat :| unused > 0 && unused !in open;
      conn := unused;
      open := open + {conn};
    }

    /** A listening socket cannot be connected. */
    method Connect(fd: nat) returns (c: Connection)
      requires Valid() && fd in open
      ensures fd in listening ==> !c.Connected?
    {
      if fd !in listening {
        if * {
          return Connected;
        }
        if * {
          return Refused;
        }
      }
      return Failed;
    }

    method Close(fd: nat)
      requires Valid() && fd in open && fd != 0
      modifies this`open, this`listening
      ensures Valid()
      ensures open == old(open) - {fd} && listening == old(listening) - {fd}
    {
      open, listening := open - {fd}, listening - {fd};
    }

    method Allocate() returns (a: nat)
      modifies this`blocks
      ensures a > 0 && a !in old(blocks) && blocks == old(blocks) + {a}
    {
      UnusedExists(blocks);
      a :| a > 0 && a !in blocks;
      blocks := blocks + {a};
    }

    /** The block stays where it is or moves. */
    method Reallocate(a: nat) returns (b: nat)
      requires a in blocks && a > 0
      modifies this`blocks
      ensures b > 0 && (b == a || b !in old(blocks))
      ensures blocks == old(blocks) - {a} + {b}
    {
      b := a;
      if * {
        blocks := blocks - {a};
        b := Allocate();
      }
    }

    method Free(a: nat)
      requires a in blocks
      modifies this`blocks
      ensures blocks == old(blocks) - {a}
    {
      blocks := blocks - {a};
    }
  }
}
