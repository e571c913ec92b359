/**
  The goal service: the `goals` table (username to ledger record), the
  append-only `completed_goals` table, the `images` drive, the lines printed to
  the console, and a log of every call made to an outside service, in order.
  Whether a write to a table or the drive succeeds, and which number
  `add_image` draws, are parameters; a payout is a transfer request recorded
  in the log.
*/
module Accounts {
  import opened Wrappers
  import opened Goals
  import opened Images

  /** A row of the `completed_goals` table. */
  datatype Completion = Completion(username: string, goal: string, reward: int, image: string)

  /** One call to an outside service. */
  datatype Call =
    | PutGoals(key: string, record: Ledger, stored: bool)  // write to the goals table
    | Transfer(wallet: string, amount: int)                // payout request to the wallet provider
    | PutImage(file: string, stored: bool)                 // upload to the images drive
    | PutCompleted(entry: Completion)                      // insert into the completed-goals table

  /** The exception raised when a user has no record: subscripting `None` with `'goals'`. */
  datatype Fault = NoGoalsRecord

  /** The line `complete_goal` prints when a claimed goal is not pending. */
  const TheftAlert: string := "Possible payout theft detected!"

  /** Number of payout requests in a call log. */
  function Payouts(calls: seq<Call>): nat
  {
    if calls == [] then 0
    else Payouts(calls[..|calls| - 1]) + (if calls[|calls| - 1].Transfer? then 1 else 0)
  }

  lemma {:induction false} PayoutsAppend(a: seq<Call>, b: seq<Call>)
    ensures Payouts(a + b) == Payouts(a) + Payouts(b)
  {
    if b != [] {
      assert (a + b)[..|a + b| - 1] == a + b[..|b| - 1];
      PayoutsAppend(a, b[..|b| - 1]);
    } else {
      assert a + b == a;
    }
  }

  /**
    The calls a completion makes once the goal is found, in order: the image
    is uploaded under drive key `key`, and the record keeps `file`, the name
    `add_image` returned.
  */
  function ClaimCalls(username: string, goal: Goal, rest: Ledger, goalsStored: bool,
                      key: string, file: string, imageStored: bool): (calls: seq<Call>)
  {
    [PutGoals(username, rest, goalsStored), Transfer(username, goal.reward), PutImage(key, imageStored)]
    + (if imageStored then [PutCompleted(Completion(username, goal.name, goal.reward, file))] else [])
  }

  /**
    A found claim requests exactly one payout, of the goal's reward, and only
    after the ledger write that removes the goal; the completion record is
    written last, and only when the image was stored.
  */
  lemma ClaimPaysOnce(username: string, goal: Goal, rest: Ledger, goalsStored: bool,
                      key: string, file: string, imageStored: bool)
    ensures var calls := ClaimCalls(username, goal, rest, goalsStored, key, file, imageStored);
      && Payouts(calls) == 1
      && calls[0].PutGoals? && calls[1] == Transfer(username, goal.reward)
      && (forall k :: 0 <= k < |calls| && k != 1 ==> !calls[k].Transfer?)
      && (imageStored <==> |calls| == 4 && calls[3].PutCompleted?)
  {
    var calls := ClaimCalls(username, goal, rest, goalsStored, key, file, imageStored);
    var head := [PutGoals(username, rest, goalsStored), Transfer(username, goal.reward), PutImage(key, imageStored)];
    PayoutsAppend(head, calls[3..]);
    assert calls == head + calls[3..];
    assert Payouts(head) == 1 by {
      assert head[..|head| - 1] == [head[0], head[1]];
      assert [head[0], head[1]][..1] == [head[0]];
      assert [head[0]][..0] == [];
      assert Payouts([head[0]]) == 0;
      assert Payouts([head[0], head[1]]) == 1;
    }
    if imageStored {
      assert calls[3..] == [calls[3]];
      assert calls[3..][..0] == [];
    }
  }

  class GoalService {
    var goalDb: map<string, Ledger>
    var completed: seq<Completion>
    var images: map<string, seq<bv8>>
    var console: seq<string>
    var calls: seq<Call>

    constructor ()
      ensures goalDb == map[] && completed == [] && images == map[] && console == [] && calls == []
    {
      goalDb := map[];
      completed := [];
      images := map[];
      console := [];
      calls := [];
    }

    /** `goal_db.get(username)`: the stored record, or None. */
    function GetGoals(username: string): Option<Ledger>
      reads this
    {
      if username in goalDb then Some(goalDb[username]) else None
    }

    /**
      The first goal in the user's list with the given name, None when no goal
      has that name; a user without a record raises.
    */
    function GetGoal(username: string, goalName: string): (r: Result<Option<Goal>, Fault>)
      reads this
      ensures r.Failure? <==> username !in goalDb
      ensures r.Success? ==> (r.value.None? <==>
        forall j :: 0 <= j < |goalDb[username].goals| ==> goalDb[username].goals[j].name != goalName)
      ensures r.Success? && r.value.Some? ==>
        exists i :: 0 <= i < |goalDb[username].goals| && goalDb[username].goals[i] == r.value.value
          && r.value.value.name == goalName
          && FirstIndex(goalDb[username].goals, goalName) == Some(i)
    {
      match GetGoals(username)
      case None => Failure(NoGoalsRecord)
      case Some(ledger) =>
        match FirstIndex(ledger.goals, goalName)
        case None => Success(None)
        case Some(i) => Success(Some(ledger.goals[i]))
    }

    /**
      `add_goals`: keep the first `amount` goals of the shuffled catalog, total
      their rewards and replace the user's whole record with
      `{value, amount, goals}`; `amount` is stored as requested.
    */
    method AddGoals(username: string, amount: int, catalog: seq<Goal>, shuffled: seq<Goal>, stored: bool)
      returns (ok: bool)
      requires multiset(shuffled) == multiset(catalog)
      modifies this
      ensures ok == stored
      ensures var gs := Prefix(shuffled, amount);
        var record := Ledger(SumRewards(gs), amount, gs);
        && goalDb == (if stored then old(goalDb)[username := record] else old(goalDb))
        && calls == old(calls) + [PutGoals(username, record, stored)]
        && (stored ==> GetGoals(username) == Some(record))
      ensures completed == old(completed) && images == old(images) && console == old(console)
    {
      var goals := Prefix(shuffled, amount);
      var total := TotalReward(goals);
      var record := Ledger(total, amount, goals);
      calls := calls + [PutGoals(username, record, stored)];
      if stored {
        goalDb := goalDb[username := record];
      }
      ok := stored;
    }

    /**
      `remove_goal`: drop the first goal with the given name and store the
      remaining list with `amount` and `value` recomputed, also when nothing
      matched. Read back after a stored write, a list with unique names no
      longer holds the goal.
    */
    method RemoveGoal(username: string, goalName: string, stored: bool) returns (r: Result<bool, Fault>)
      modifies this
      ensures username !in old(goalDb) ==>
        r == Failure(NoGoalsRecord) && goalDb == old(goalDb) && calls == old(calls)
      ensures username in old(goalDb) ==>
        var record := Removed(old(goalDb)[username], goalName);
        && r == Success(stored)
        && goalDb == (if stored then old(goalDb)[username := record] else old(goalDb))
        && calls == old(calls) + [PutGoals(username, record, stored)]
        && (stored ==> GetGoals(username) == Some(record))
        && (stored && UniqueNames(old(goalDb)[username].goals) ==>
              GetGoal(username, goalName) == Success(None) && UniqueNames(goalDb[username].goals))
      ensures completed == old(completed) && images == old(images) && console == old(console)
    {
      if username !in goalDb {
        return Failure(NoGoalsRecord);
      }
      ghost var before := goalDb[username].goals;
      var goals := RemoveFirstMatch(goalDb[username].goals, goalName);
      var total := TotalReward(goals);
      var record := Ledger(total, |goals|, goals);
      calls := calls + [PutGoals(username, record, stored)];
      if stored {
        goalDb := goalDb[username := record];
        if UniqueNames(before) {
          RemovedGoalIsGone(before, goalName);
          RemovedKeepsUnique(before, goalName);
        }
      }
      r := Success(stored);
    }

    /** `payout`: one transfer request of `amount` to `wallet`. */
    method Payout(wallet: string, amount: int)
      modifies this
      ensures calls == old(calls) + [Transfer(wallet, amount)]
      ensures goalDb == old(goalDb) && completed == old(completed) && images == old(images)
      ensures console == old(console)
    {
      calls := calls + [Transfer(wallet, amount)];
    }

    /**
      `add_image` as written: the file goes under the returned name with
      ".jpg" appended once more, so the returned name does not locate it.
    */
    method AddImageAsWritten(image: seq<bv8>, draw: nat, stored: bool) returns (ref: Option<string>)
      requires draw <= MaxDraw
      modifies this
      ensures ref == (if stored then Some(ImageName(draw)) else None)
      ensures images == (if stored then old(images)[AsWrittenDriveKey(ImageName(draw)) := image] else old(images))
      ensures calls == old(calls) + [PutImage(AsWrittenDriveKey(ImageName(draw)), stored)]
      ensures ref.Some? && ImageName(draw) !in old(images) ==> ref.value !in images
      ensures goalDb == old(goalDb) && completed == old(completed) && console == old(console)
    {
      var name := ImageName(draw);
      var key := AsWrittenDriveKey(name);
      calls := calls + [PutImage(key, stored)];
      if stored {
        if name !in images {
          AsWrittenReferenceDangles(images, draw, image);
        }
        images := images[key := image];
        ref := Some(name);
      } else {
        ref := None;
      }
    }

    /**
      `add_image` with the file stored under the name it returns, so the
      reference a completion record keeps locates the image.
    */
    method AddImage(image: seq<bv8>, draw: nat, stored: bool) returns (ref: Option<string>)
      requires draw <= MaxDraw
      modifies this
      ensures ref == (if stored then Some(ImageName(draw)) else None)
      ensures images == (if stored then old(images)[ImageName(draw) := image] else old(images))
      ensures calls == old(calls) + [PutImage(ImageName(draw), stored)]
      ensures ref.Some? ==> ref.value in images && images[ref.value] == image
      ensures goalDb == old(goalDb) && completed == old(completed) && console == old(console)
    {
      var name := ImageName(draw);
      calls := calls + [PutImage(name, stored)];
      if stored {
        images := images[name := image];
        ref := Some(name);
      } else {
        ref := None;
      }
    }

    /**
      Steps two and three of `complete_goal` once the goal is found: remove
      it, then request one payout of its reward to the username.
    */
    method RemoveAndPay(username: string, goalName: string, goalsStored: bool) returns (goal: Goal)
      requires username in goalDb && FirstIndex(goalDb[username].goals, goalName).Some?
      modifies this
      ensures var ledger := old(goalDb)[username];
        var rest := Removed(ledger, goalName);
        && goal == ledger.goals[FirstIndex(ledger.goals, goalName).value]
        && goalDb == (if goalsStored then old(goalDb)[username := rest] else old(goalDb))
        && calls == old(calls) + [PutGoals(username, rest, goalsStored), Transfer(username, goal.reward)]
      ensures completed == old(completed) && images == old(images) && console == old(console)
    {
      var ledger := goalDb[username];
      goal := ledger.goals[FirstIndex(ledger.goals, goalName).value];
      var _ := RemoveGoal(username, goalName, goalsStored);
      Payout(username, goal.reward);
    }

    /**
      Steps four and five of `complete_goal` as written: upload the image
      through `add_image`, then append a completion record naming the
      returned image only when the upload succeeded.
    */
    method UploadAndRecord(username: string, goal: Goal, image: seq<bv8>, draw: nat, imageStored: bool)
      returns (ok: bool)
      requires draw <= MaxDraw
      modifies this
      ensures var file := ImageName(draw);
        && ok == imageStored
        && images == (if imageStored then old(images)[AsWrittenDriveKey(file) := image] else old(images))
        && calls == old(calls) + [PutImage(AsWrittenDriveKey(file), imageStored)]
             + (if imageStored then [PutCompleted(Completion(username, goal.name, goal.reward, file))] else [])
        && completed == old(completed)
             + (if imageStored then [Completion(username, goal.name, goal.reward, file)] else [])
        && (imageStored && file !in old(images) ==> file !in images)
      ensures goalDb == old(goalDb) && console == old(console)
    {
      var ref := AddImageAsWritten(image, draw, imageStored);
      ok := ref.Some?;
      if ok {
        var entry := Completion(username, goal.name, goal.reward, ref.value);
        completed := completed + [entry];
        calls := calls + [PutCompleted(entry)];
      }
    }

    /** Steps four and five over the corrected upload. */
    method UploadAndRecordCorrected(username: string, goal: Goal, image: seq<bv8>, draw: nat, imageStored: bool)
      returns (ok: bool)
      requires draw <= MaxDraw
      modifies this
      ensures var file := ImageName(draw);
        && ok == imageStored
        && images == (if imageStored then old(images)[file := image] else old(images))
        && calls == old(calls) + [PutImage(file, imageStored)]
             + (if imageStored then [PutCompleted(Completion(username, goal.name, goal.reward, file))] else [])
        && completed == old(completed)
             + (if imageStored then [Completion(username, goal.name, goal.reward, file)] else [])
        && (imageStored ==> file in images && images[file] == image)
      ensures goalDb == old(goalDb) && console == old(console)
    {
      var ref := AddImage(image, draw, imageStored);
      ok := ref.Some?;
      if ok {
        var entry := Completion(username, goal.name, goal.reward, ref.value);
        completed := completed + [entry];
        calls := calls + [PutCompleted(entry)];
      }
    }

    /**
      `complete_goal` as written: look the goal up; if it is absent, print the
      theft alert and fail with nothing else changed. Otherwise remove it,
      request one payout of its reward, upload the image through `add_image`
      as written, and append a completion record only when the upload
      succeeded. Nothing is rolled back when a later step fails, and the
      record's image reference names no file the upload wrote.
    */
    method CompleteGoal(username: string, goalName: string, image: seq<bv8>,
                        goalsStored: bool, draw: nat, imageStored: bool)
      returns (r: Result<bool, Fault>)
      requires draw <= MaxDraw
      modifies this
      // no record: get_goal raises before any write
      ensures username !in old(goalDb) ==>
        && r == Failure(NoGoalsRecord)
        && goalDb == old(goalDb) && completed == old(completed)
        && images == old(images) && calls == old(calls) && console == old(console)
      // fraud gate: an unknown goal prints the alert and pays nothing
      ensures username in old(goalDb) && FirstIndex(old(goalDb)[username].goals, goalName).None? ==>
        && r == Success(false)
        && console == old(console) + [TheftAlert]
        && goalDb == old(goalDb) && completed == old(completed)
        && images == old(images) && calls == old(calls)
      // found: remove, pay once, upload the image, record only if it was stored
      ensures username in old(goalDb) && FirstIndex(old(goalDb)[username].goals, goalName).Some? ==>
        var ledger := old(goalDb)[username];
        var goal := ledger.goals[FirstIndex(ledger.goals, goalName).value];
        var rest := Removed(ledger, goalName);
        var file := ImageName(draw);
        var key := AsWrittenDriveKey(file);
        && r == Success(imageStored)
        && console == old(console)
        && goalDb == (if goalsStored then old(goalDb)[username := rest] else old(goalDb))
        && images == (if imageStored then old(images)[key := image] else old(images))
        && calls == old(calls) + ClaimCalls(username, goal, rest, goalsStored, key, file, imageStored)
        && completed == old(completed)
             + (if imageStored then [Completion(username, goalName, goal.reward, file)] else [])
        && (imageStored && file !in old(images) ==> completed[|completed| - 1].image !in images)
      // exactly one payout request when the goal was found, none otherwise
      ensures Payouts(calls) == old(Payouts(calls)) +
        (if username in old(goalDb) && FirstIndex(old(goalDb)[username].goals, goalName).Some? then 1 else 0)
    {
      var found := GetGoal(username, goalName);
      if found.Failure? {
        PayoutsAppend(calls, []);
        return Failure(found.error);
      }
      if found.value.None? {
        console := console + [TheftAlert];
        PayoutsAppend(calls, []);
        return Success(false);
      }
      ghost var file := ImageName(draw);
      ghost var before := calls;
      ghost var rest := Removed(goalDb[username], goalName);
      var goal := RemoveAndPay(username, goalName, goalsStored);
      var ok := UploadAndRecord(username, goal, image, draw, imageStored);
      r := Success(ok);
      ClaimPaysOnce(username, goal, rest, goalsStored, AsWrittenDriveKey(file), file, imageStored);
      PayoutsAppend(before, ClaimCalls(username, goal, rest, goalsStored, AsWrittenDriveKey(file), file, imageStored));
    }

    /**
      `complete_goal` over the corrected upload: the same steps, but the image
      is stored under the name the completion record keeps, so a recorded
      claim's evidence resolves.
    */
    method CompleteGoalCorrected(username: string, goalName: string, image: seq<bv8>,
                                 goalsStored: bool, draw: nat, imageStored: bool)
      returns (r: Result<bool, Fault>)
      requires draw <= MaxDraw
      modifies this
      ensures username !in old(goalDb) ==>
        && r == Failure(NoGoalsRecord)
        && goalDb == old(goalDb) && completed == old(completed)
        && images == old(images) && calls == old(calls) && console == old(console)
      ensures username in old(goalDb) && FirstIndex(old(goalDb)[username].goals, goalName).None? ==>
        && r == Success(false)
        && console == old(console) + [TheftAlert]
        && goalDb == old(goalDb) && completed == old(completed)
        && images == old(images) && calls == old(calls)
      ensures username in old(goalDb) && FirstIndex(old(goalDb)[username].goals, goalName).Some? ==>
        var ledger := old(goalDb)[username];
        var goal := ledger.goals[FirstIndex(ledger.goals, goalName).value];
        var rest := Removed(ledger, goalName);
        var file := ImageName(draw);
        && r == Success(imageStored)
        && console == old(console)
        && goalDb == (if goalsStored then old(goalDb)[username := rest] else old(goalDb))
        && images == (if imageStored then old(images)[file := image] else old(images))
        && calls == old(calls) + ClaimCalls(username, goal, rest, goalsStored, file, file, imageStored)
        && completed == old(completed)
             + (if imageStored then [Completion(username, goalName, goal.reward, file)] else [])
      // every record this call appends names an image that is on the drive
      ensures r == Success(true) ==>
        completed[|completed| - 1].image in images && images[completed[|completed| - 1].image] == image
      ensures Payouts(calls) == old(Payouts(calls)) +
        (if username in old(goalDb) && FirstIndex(old(goalDb)[username].goals, goalName).Some? then 1 else 0)
    {
      var found := GetGoal(username, goalName);
      if found.Failure? {
        PayoutsAppend(calls, []);
        return Failure(found.error);
      }
      if found.value.None? {
        console := console + [TheftAlert];
        PayoutsAppend(calls, []);
        return Success(false);
      }
      ghost var file := ImageName(draw);
      ghost var before := calls;
      ghost var rest := Removed(goalDb[username], goalName);
      var goal := RemoveAndPay(username, goalName, goalsStored);
      var ok := UploadAndRecordCorrected(username, goal, image, draw, imageStored);
      r := Success(ok);
      ClaimPaysOnce(username, goal, rest, goalsStored, file, file, imageStored);
      PayoutsAppend(before, ClaimCalls(username, goal, rest, goalsStored, file, file, imageStored));
    }

    /**
      Two claims of the same goal, one after the other, request at most one
      payout, provided the first claim's ledger write succeeded and the
      user's goal names are unique. The second claim is stopped at the gate.
    */
    method ClaimTwice(username: string, goalName: string, image: seq<bv8>,
                      draw1: nat, imageStored1: bool, goalsStored2: bool, draw2: nat, imageStored2: bool)
      returns (first: Result<bool, Fault>, second: Result<bool, Fault>)
      requires draw1 <= MaxDraw && draw2 <= MaxDraw
      requires username in goalDb ==> UniqueNames(goalDb[username].goals)
      modifies this
      ensures Payouts(calls) <= old(Payouts(calls)) + 1
      ensures first.Success? ==> second == Success(false)
    {
      first := CompleteGoal(username, goalName, image, true, draw1, imageStored1);
      if username in old(goalDb) && FirstIndex(old(goalDb)[username].goals, goalName).Some? {
        RemovedGoalIsGone(old(goalDb)[username].goals, goalName);
      }
      second := CompleteGoal(username, goalName, image, goalsStored2, draw2, imageStored2);
    }

    /**
      When the first claim's ledger write fails, `remove_goal` swallows the
      error and `complete_goal` pays anyway. The goal stays in the user's
      record, so a second claim of it passes the gate and is paid again.
    */
    method ClaimTwiceAfterFailedWrite(username: string, goalName: string, image: seq<bv8>,
                                      draw1: nat, imageStored1: bool, goalsStored2: bool, draw2: nat, imageStored2: bool)
      returns (first: Result<bool, Fault>, second: Result<bool, Fault>)
      requires draw1 <= MaxDraw && draw2 <= MaxDraw
      modifies this
      ensures username in old(goalDb) && FirstIndex(old(goalDb)[username].goals, goalName).Some? ==>
        && first == Success(imageStored1) && second == Success(imageStored2)
        && Payouts(calls) == old(Payouts(calls)) + 2
      ensures !(username in old(goalDb) && FirstIndex(old(goalDb)[username].goals, goalName).Some?) ==>
        Payouts(calls) == old(Payouts(calls))
    {
      first := CompleteGoal(username, goalName, image, false, draw1, imageStored1);
      second := CompleteGoal(username, goalName, image, goalsStored2, draw2, imageStored2);
    }
  }
}
