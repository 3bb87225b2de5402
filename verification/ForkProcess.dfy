/** The forking server's main loop with its mutable process and descriptor state, while its children and the
    clients move as they please. `trace` is the run of ForkServer executed so far. */
module ForkProcess {
  import opened Runs
  import EchoLink
  import opened ForkServer

  class Server {
    const c: EchoLink.Config
    var parent: Parent
    var parentFds: set<Descriptor>
    var children: seq<Process>
    var links: seq<EchoLink.Link>
    const forkMayFail: bool
    ghost var forks: seq<int>     // what the fork() calls have returned to the parent
    ghost var trace: seq<State>

    function Abs(): State
      reads this
    {
      State(parent, parentFds, children, links)
    }

    ghost predicate Valid()
      reads this
    {
      IsRun(NextRel(c), trace) && trace[0] == START && Last(trace) == Abs()
    }

    constructor (c: EchoLink.Config, forkMayFail: bool)
      ensures Valid() && this.c == c && this.forkMayFail == forkMayFail && Abs() == START && forks == []
    {
      this.c, this.forkMayFail, forks := c, forkMayFail, [];
      parent, parentFds, children, links := Accepting, {Listening}, [], [];
      trace := [START];
    }

    lemma Invariant()
      requires Valid()
      ensures Inv(Abs())
    {
      RunsKeepInv(c, trace, |trace| - 1);
    }

    ghost method Took(step: Step)
      requires IsRun(NextRel(c), trace) && trace[0] == START
      requires Enabled(c, Last(trace), step) && Abs() == Apply(c, Last(trace), step)
      modifies this`trace
      ensures Valid() && trace == old(trace) + [Abs()]
    {
      assert Next(c, Last(trace), Abs());
      trace := ExtendRun(NextRel(c), trace, Abs());
    }

    /** What child i does next: close the listening socket, or a step of do_echo. */
    function ChildStep(i: nat, step: EchoLink.Step): Step
      reads this
    {
      if i < |children| && children[i].pc.Starting? then ChildClosesListening(i) else ChildEchoes(i, step)
    }

    /** Makes that step if it is possible, and nothing else. */
    method ChildMoves(i: nat, step: EchoLink.Step)
      requires Valid()
      modifies this`children, this`links, this`trace
      ensures Valid() && |links| == old(|links|) && |children| == old(|children|)
      ensures var s := old(Abs());
              if Enabled(c, s, old(ChildStep(i, step)))
              then trace == old(trace) + [Apply(c, s, old(ChildStep(i, step)))]
              else trace == old(trace)
    {
      if i >= |children| {
        return;
      }
      var p := children[i];
      if p.pc.Starting? {
        children := children[i := p.(pc := Echoing, fds := p.fds - {Listening})];
        Took(ChildClosesListening(i));
      } else if p.pc.Echoing? && p.conn < |links| && Conn(p.conn) in p.fds
                && EchoLink.ServerStep(step) && EchoLink.Enabled(c, links[p.conn], step) {
        links := links[p.conn := EchoLink.Apply(c, links[p.conn], step)];
        if step.ServerEof? {
          p := p.(pc := Returned);
        }
        children := children[i := p];
        Took(ChildEchoes(i, step));
      }
    }

    /** The client of connection i sends, receives or closes, if it can. */
    method ClientMoves(i: nat, step: EchoLink.Step)
      requires Valid()
      modifies this`links, this`trace
      ensures Valid() && |links| == old(|links|)
      ensures var s := old(Abs());
              if Enabled(c, s, Step.ClientMoves(i, step))
              then trace == old(trace) + [Apply(c, s, Step.ClientMoves(i, step))]
              else trace == old(trace)
    {
      if i < |links| && !EchoLink.ServerStep(step) && EchoLink.Enabled(c, links[i], step) {
        links := links[i := EchoLink.Apply(c, links[i], step)];
        Took(Step.ClientMoves(i, step));
      }
    }

    /** Any number of steps by the children and the clients. */
    method Others()
      requires Valid()
      modifies this`children, this`links, this`trace
      ensures Valid() && |links| == old(|links|) && |children| == old(|children|) && old(trace) <= trace
    {
      var moves: nat := *;
      while moves > 0
        invariant Valid() && |links| == old(|links|) && |children| == old(|children|) && old(trace) <= trace
      {
        var i: nat, step: EchoLink.Step, child: bool := *, *, *;
        if child {
          ChildMoves(i, step);
        } else {
          ClientMoves(i, step);
        }
        moves := moves - 1;
      }
    }

    /** fork(), as the parent sees it: -1, or the pid of the child. */
    method Fork() returns (pid: int)
      modifies this`forks
      ensures forks == old(forks) + [pid]
      ensures pid == -1 || pid > 0
      ensures pid == -1 ==> forkMayFail
    {
      var fails: bool := *;
      if forkMayFail && fails {
        pid := -1;
      } else {
        pid :| pid > 0;
      }
      forks := forks + [pid];
    }

    /** One pass of the parent's loop: accept, fork, close. It calls fork() once, and goes on exactly if that
        succeeds, with one child more. */
    method AcceptOne() returns (forked: bool)
      requires Valid() && parent == Accepting
      modifies this
      ensures Valid() && |links| == old(|links|) + 1
      ensures |forks| == old(|forks|) + 1 && forks[..|forks| - 1] == old(forks)
      ensures forked <==> Last(forks) != -1
      ensures !forkMayFail ==> forked
      ensures parent == if forked then Accepting else Exited
      ensures |children| == old(|children|) + if forked then 1 else 0
    {
      // accept
      parentFds := parentFds + {Conn(|links|)};
      links := links + [EchoLink.FRESH_LINK];
      parent := Forking;
      Took(Accept);
      Others();
      // fork
      var pid := Fork();
      if pid < 0 {
        parent, parentFds := Exited, {};
        Took(ForkFails);
        return false;
      }
      children := children + [Process(Starting, |links| - 1, parentFds)];
      parent := Closing;
      Took(Step.Fork);
      Others();
      // close(c_socket)
      parentFds := parentFds - {Conn(|links| - 1)};
      parent := Accepting;
      Took(ParentCloses);
      return true;
    }

    /** `clients` passes of the parent's endless loop, fewer exactly if a fork fails. Afterwards the parent holds
        the listening socket and no connection, there is one child per connection holding nothing of any other, and
        every client's output is a prefix of its own input. */
    method Serve(clients: nat)
      requires Valid() && parent == Accepting
      modifies this
      ensures Valid() && (parent == Accepting || parent == Exited) && old(forks) <= forks
      ensures parent == Exited <==> |forks| > old(|forks|) && Last(forks) == -1
      ensures forall i :: old(|forks|) <= i < |forks| - 1 ==> forks[i] != -1
      ensures |links| - old(|links|) == |forks| - old(|forks|) <= clients
      ensures !forkMayFail ==> parent == Accepting
      ensures parent == Accepting ==> parentFds == {Listening} && |children| == |links| == old(|links|) + clients
      ensures parent == Exited ==> parentFds == {} && |links| == |children| + 1
      ensures forall i :: 0 <= i < |children| ==> children[i].fds <= {Listening, Conn(i)}
      ensures forall i :: 0 <= i < |links| ==> links[i].output <= links[i].input
    {
      var left := clients;
      while left > 0
        invariant Valid() && parent == Accepting && |links| + left == old(|links|) + clients
        invariant old(forks) <= forks && |forks| + left == old(|forks|) + clients
        invariant forall i :: old(|forks|) <= i < |forks| ==> forks[i] != -1
      {
        Others();
        var forked := AcceptOne();
        if !forked {
          break;
        }
        left := left - 1;
      }
      Invariant();
      forall i | 0 <= i < |links| ensures links[i].output <= links[i].input {
        EachClientGetsItsOwnEcho(c, trace, i);
      }
    }
  }
}
