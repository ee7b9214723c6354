/**
 * The command-by-command configuration push of the Netmiko driver
 * (`linux_net/plugins/drivers/netmiko/__init__.py`, `config`).
 */
module ConfigPush {
  type Command = string

  // How a command ends: accepted, answered with a device error, or an exception before or after it
  // reached the device.
  datatype Reply = Accepted | DeviceError | RaisedBefore | RaisedAfter

  datatype Note = Clean | Refused | Raised | Skipped
  datatype Result = Result(command: Command, exitStatus: int, note: Note)

  class Device {
    var received: seq<Command>
    var commits: nat
    var saves: nat

    constructor ()
      ensures received == [] && commits == 0 && saves == 0
    {
      received, commits, saves := [], 0, 0;
    }
  }

  // The steps around the commands that may raise.
  datatype Frame = Frame(enters: bool, commits: bool, saves: bool, exits: bool)

  // The number of commands before the first that is not accepted.
  function AcceptedPrefix(replies: seq<Reply>): (n: nat)
    ensures n <= |replies|
    ensures forall i :: 0 <= i < n ==> replies[i] == Accepted
    ensures n < |replies| ==> replies[n] != Accepted
  {
    if replies == [] || replies[0] != Accepted then 0 else 1 + AcceptedPrefix(replies[1..])
  }

  function Joined(commands: seq<Command>): string {
    if commands == [] then "" else if |commands| == 1 then commands[0] else commands[0] + "\n" + Joined(commands[1..])
  }

  lemma {:induction false} JoinedAppend(a: seq<Command>, b: seq<Command>)
    requires a != [] && b != []
    ensures Joined(a + b) == Joined(a) + "\n" + Joined(b)
    ensures |a| == 1 ==> Joined(a) == a[0]
  {
    assert (a + b)[1..] == a[1..] + b;
    if |a| > 1 {
      JoinedAppend(a[1..], b);
      assert Joined(a + b) == a[0] + "\n" + (Joined(a[1..]) + "\n" + Joined(b));
      assert Joined(a) == a[0] + "\n" + Joined(a[1..]);
    }
  }

  // What the device has received when the loop ends.
  function Reached(commands: seq<Command>, replies: seq<Reply>): seq<Command>
    requires |replies| == |commands|
  {
    var n := AcceptedPrefix(replies);
    if n < |commands| && replies[n] != RaisedBefore then commands[..n + 1] else commands[..n]
  }

  /**
   * The device received every command if all were accepted; otherwise all before the first that was
   * not, and that one too unless writing it to the device raised.
   */
  lemma ReachedExactly(commands: seq<Command>, replies: seq<Reply>, n: nat)
    requires |replies| == |commands| && n <= |commands| && forall i :: 0 <= i < n ==> replies[i] == Accepted
    ensures n == |commands| ==> Reached(commands, replies) == commands
    ensures n < |commands| && replies[n] == RaisedBefore ==> Reached(commands, replies) == commands[..n]
    ensures n < |commands| && (replies[n] == DeviceError || replies[n] == RaisedAfter) ==>
              Reached(commands, replies) == commands[..n] + [commands[n]]
  {
    assert n <= AcceptedPrefix(replies);
  }

  // One result per command, in order: clean up to the first failure, which is told, and skipped after.
  ghost predicate Reports(commands: seq<Command>, replies: seq<Reply>, results: seq<Result>)
    requires |replies| == |commands|
  {
    var n := AcceptedPrefix(replies);
    && |results| == |commands|
    && (forall i :: 0 <= i < |results| ==> results[i].command == commands[i])
    && (forall i :: 0 <= i < n ==> results[i].exitStatus == 0 && results[i].note == Clean)
    && (n < |commands| ==>
          (results[n].exitStatus == 1 && results[n].note == if replies[n] == DeviceError then Refused else Raised))
    && (forall i :: n < i < |results| ==> results[i].exitStatus == 1 && results[i].note == Skipped)
  }

  method SkipRest(commands: seq<Command>, from: nat, results: seq<Result>) returns (all: seq<Result>)
    requires from <= |commands| && |results| == from
    ensures |all| == |commands| && all[..from] == results
    ensures forall i :: from <= i < |all| ==> all[i] == Result(commands[i], 1, Skipped)
  {
    all := results;
    for i := from to |commands|
      invariant |all| == i && all[..from] == results
      invariant forall k :: from <= k < i ==> all[k] == Result(commands[k], 1, Skipped)
    {
      all := all + [Result(commands[i], 1, Skipped)];
    }
  }

  // The loop over the commands.
  method Send(device: Device, commands: seq<Command>, replies: seq<Reply>) returns (results: seq<Result>)
    requires |replies| == |commands|
    modifies device`received
    ensures Reports(commands, replies, results)
    ensures device.received == old(device.received) + Reached(commands, replies)
  {
    results := [];
    ghost var before := device.received;
    assert before + commands[..0] == before;
    for i := 0 to |commands|
      invariant |results| == i <= AcceptedPrefix(replies)
      invariant forall k :: 0 <= k < i ==> results[k] == Result(commands[k], 0, Clean)
      invariant device.received == before + commands[..i]
    {
      if replies[i] != RaisedBefore {
        device.received := device.received + [commands[i]];
        assert before + commands[..i] + [commands[i]] == before + commands[..i + 1];
      }
      if replies[i] == Accepted {
        results := results + [Result(commands[i], 0, Clean)];
      } else {
        var note := if replies[i] == DeviceError then Refused else Raised;
        results := SkipRest(commands, i + 1, results + [Result(commands[i], 1, note)]);
        assert results[i] == results[..i + 1][i];
        assert forall k :: 0 <= k < i ==> results[k] == results[..i + 1][k];
        return;
      }
    }
  }

  lemma AcceptedReachesAll(commands: seq<Command>, replies: seq<Reply>)
    requires |replies| == |commands| && AcceptedPrefix(replies) == |commands|
    ensures Reached(commands, replies) == commands
  {
  }

  /**
   * The whole push.  Saving happens exactly when it is asked for and every command was accepted,
   * the empty list included; an exception outside the loop replaces all results by a single one.
   */
  method Config(device: Device, commands: seq<Command>, replies: seq<Reply>, save: bool, frame: Frame)
    returns (results: seq<Result>)
    requires |replies| == |commands|
    modifies device
    ensures !frame.enters ==> device.received == old(device.received)
    ensures frame.enters ==> device.received == old(device.received) + Reached(commands, replies)
    // The refused command reached the device, one whose writing raised did not.
    ensures forall n :: frame.enters && 0 <= n < |commands| && replies[n] != Accepted
                        && (forall i :: 0 <= i < n ==> replies[i] == Accepted) ==>
              device.received == old(device.received) + (if replies[n] == RaisedBefore then commands[..n] else commands[..n + 1])
    // A commit is attempted even after a failed command.
    ensures device.commits == old(device.commits) + if frame.enters then 1 else 0
    ensures device.saves == old(device.saves) +
              if frame.enters && frame.commits && frame.saves && save && AcceptedPrefix(replies) == |commands|
              then 1 else 0
    // What is saved is the whole list.
    ensures device.saves > old(device.saves) ==> device.received == old(device.received) + commands
    ensures var saving := save && AcceptedPrefix(replies) == |commands|;
            if frame.enters && frame.commits && (saving ==> frame.saves) && frame.exits
            then Reports(commands, replies, results)
            else results == [Result(Joined(commands), 1, Raised)]
  {
    if !frame.enters {
      return [Result(Joined(commands), 1, Raised)];
    }
    forall n | 0 <= n < |commands| && replies[n] != Accepted && forall i :: 0 <= i < n ==> replies[i] == Accepted
      ensures Reached(commands, replies) == if replies[n] == RaisedBefore then commands[..n] else commands[..n + 1]
    {
      ReachedExactly(commands, replies, n);
    }
    results := Send(device, commands, replies);
    device.commits := device.commits + 1;
    if !frame.commits {
      return [Result(Joined(commands), 1, Raised)];
    }
    var allSuccess := forall i :: 0 <= i < |results| ==> results[i].exitStatus == 0;
    AllCleanExactly(commands, replies, results);
    if allSuccess {
      AcceptedReachesAll(commands, replies);
    }
    if save && allSuccess {
      if !frame.saves {
        return [Result(Joined(commands), 1, Raised)];
      }
      device.saves := device.saves + 1;
    }
    if !frame.exits {
      return [Result(Joined(commands), 1, Raised)];
    }
  }

  // All statuses are zero exactly when no command failed.
  lemma AllCleanExactly(commands: seq<Command>, replies: seq<Reply>, results: seq<Result>)
    requires |replies| == |commands| && Reports(commands, replies, results)
    ensures (forall i :: 0 <= i < |results| ==> results[i].exitStatus == 0) <==>
            (forall i :: 0 <= i < |replies| ==> replies[i] == Accepted)
    ensures (forall i :: 0 <= i < |results| ==> results[i].exitStatus == 0) <==>
            AcceptedPrefix(replies) == |commands|
  {
    var n := AcceptedPrefix(replies);
    if n < |commands| {
      assert results[n].exitStatus == 1;
      assert replies[n] != Accepted;
    }
  }
}
