# Goal ledger and goal-completion workflow

A Dafny model of the core of a small rewards service. Each user gets a
random handful of goals from a catalog. Every goal carries a monetary reward.
A user claims a reward by sending a photo as proof that the goal was done. The
model covers the per-user goal ledger (`add_goals`, `remove_goal`,
`get_goals`, `get_goal`) and the completion workflow `complete_goal` in
`accounts.py`, together with the two collaborators that workflow calls:
`payout` and `add_image`.

- `wrappers.dfy`: `Option` and `Result`. A Python `None` becomes `None` and a raised exception becomes `Failure`.
- `goals.dfy` (module `Goals`): goals, ledger records, the list operations on a user's goals, and the lemmas about them.
  - The accumulator loop and the first-match removal loop are methods proved against specification functions.
  - Rewards are integer cents, so `round(total, 2)` is the identity.
- `images.dfy` (module `Images`): the image name `add_image` draws and the drive key it writes. This module holds the finding below.
- `accounts.dfy` (module `Accounts`): class `GoalService`, which holds the service's state:
  - `goalDb`: the goals table, a map from username to record;
  - `completed`: the append-only completed-goals table;
  - `images`: the image drive;
  - `console`: the lines the code prints that the model keeps (the theft alert);
  - `calls`: a log of every call made to an outside service, in order.

  Some inputs to the model are parameters:
  - whether a write to a table or to the drive succeeds;
  - the number `add_image` draws;
  - the shuffled catalog, which must be a permutation of the catalog.

Behaviour of the code that the model keeps as written:
- `add_goals` stores `amount` as the requested `n`. It does not clamp it to the catalog size. `Goals.AssignedLedger` proves that `amount` equals the list length exactly when `0 <= n <= |catalog|`.
- A negative `n` follows Python's slice `goals[:n]`, which counts from the end.
- An unknown goal makes `complete_goal` print "Possible payout theft detected!" and return `False`. An image failure also returns `False`, and `complete_goal` itself prints nothing then. The error line that `add_image` prints (accounts.py:329) is left out (see "## Left out"). The model records the theft alert in the service's `console` field, so the two outcomes differ there as well as in the tables and the call log.
- A user with no record makes `get_goal` and `remove_goal` raise. `get_goal` subscripts the `None` that `get_goals` returns (accounts.py:306). `remove_goal` subscripts the `None` from its own direct read `goal_db.get(username)` (accounts.py:253). The model returns `Failure(NoGoalsRecord)` and changes nothing.
- `remove_goal` catches a failed ledger write and returns `False` (accounts.py:267-272). `complete_goal` ignores that result and pays anyway (accounts.py:348-349). The goal then stays in the user's record, so a second claim of it pays again. `ClaimTwiceAfterFailedWrite` states this, and `ClaimTwice` shows that a stored first write prevents it.
- `payout` receives the username where a wallet id is expected (accounts.py:349). The model keeps that argument as written.
- `complete_goal` uploads through `add_image` as written, so the image reference in its completion record names no file that upload stored (see Findings). `CompleteGoal` models this. `CompleteGoalCorrected` runs the same steps over the corrected upload.

## Model

| member | source | states |
|---|---|---|
| `Goals.Prefix` | accounts.py:222 | `goals[:amount]` with Python slice semantics: the result is a prefix of the shuffled catalog. For `n >= 0` its length is `min(n, len)`; for negative `n` it is `max(0, len + n)`. |
| `Goals.TotalReward` | accounts.py:223-226 | The accumulator loop returns the sum of all rewards in the list. |
| `Goals.FirstIndex` | accounts.py:306-310 | Gives the position of the first goal with the given name; no earlier goal has that name. Gives None exactly when no goal has the name. |
| `Goals.RemoveFirstMatch` | accounts.py:254-257 | The search-and-`list.remove` loop drops exactly the first goal with the name and leaves the list unchanged when none matches. |
| `Goals.ListRemove` | accounts.py:256 | Python's `list.remove(goal)`, defined only when the goal is in the list; the result is one element shorter. |
| `Goals.ListRemoveAt` | accounts.py:256 | `list.remove(x)` deletes the first position holding `x`: when no earlier element equals `s[i]`, removing `s[i]` deletes exactly position `i`. |
| `Goals.ListRemoveContents` | accounts.py:256 | `list.remove(x)` takes exactly one copy of `x` out of the multiset and keeps every other element. |
| `Goals.RemoveFirstNamedEffect` | accounts.py:254-257 | When the goal is present, removal shortens the list by one, keeps the other goals in order, lowers the reward sum by that goal's reward, and takes exactly that goal out of the multiset. When it is absent, the list is unchanged. |
| `Goals.Removed` | accounts.py:258-266 | The record `remove_goal` stores always has `amount == len(goals)` and `value == Σ reward`, including when nothing matched. |
| `Goals.RemovedFromConsistent` | accounts.py:254-266 | On a consistent record that holds the goal, removal lowers `amount` by exactly 1 and `value` by exactly the goal's reward. |
| `Goals.RemovedGoalIsGone` | accounts.py:254-257 | In a list with unique names, no goal with the removed name is left, so a second claim for the same goal fails the lookup. |
| `Goals.RemovedKeepsUnique` | accounts.py:254-257 | Removal keeps names unique, so the previous row applies again after every further removal. |
| `Goals.UniqueUnderPermutation` | accounts.py:221 | Shuffling a catalog whose names are unique keeps the names unique. |
| `Goals.AssignedLedger` | accounts.py:219-231 | The assigned goals are drawn from the catalog without replacement (multiset inclusion). For `n >= 0` there are `min(n, |catalog|)` of them. The record is consistent exactly when `0 <= n <= |catalog|`, because `amount` is stored as `n`. Unique catalog names stay unique. |
| `Images.Decimal` | accounts.py:325 | The rendering of `n` as Python's `str` gives it is a non-empty string of digits that denotes `n` and starts with '0' only when `n` is zero. |
| `Images.ImageName` | accounts.py:325 | The returned name is `Decimal(draw)` followed by `.jpg`, so its part before `.jpg` is digits that denote the draw, with no leading zero unless the draw is zero. |
| `Images.ImageNameInjective` | accounts.py:325 | Two draws give the same image name exactly when they are equal. |
| `Images.AsWrittenDriveKey` | accounts.py:326 | The drive key written is the returned name with `.jpg` appended once more: four characters longer, the name as its prefix, and never equal to the name. |
| `Images.AsWrittenReferenceDangles` | accounts.py:325-327 | As written, the drive key differs from the returned name. On a drive that did not already hold the name, the returned reference locates no file. |
| `Images.AsWrittenDrawSeven` | accounts.py:325-327 | Example: draw 7 returns `7.jpg` but stores `7.jpg.jpg`, and `7.jpg` is not on the drive. |
| `Accounts.ClaimPaysOnce` | accounts.py:348-360 | A found claim makes exactly one payout request, of the goal's reward. It comes right after the ledger write that removes the goal, and no other call is a payout. A completion record is the last call, and it is made exactly when the image was stored. |
| `Accounts.GoalService.GetGoal` | accounts.py:285-310 | Reads the user's record as `get_goals` does. Fails exactly when the user has no record. Returns None exactly when no goal has the name. Otherwise returns a goal of the user's list with that name, at the first matching position. |
| `Accounts.GoalService.AddGoals` | accounts.py:219-238 | Replaces the user's whole record with `{Σ rewards, n, goals[:n]}` when the write succeeds, and `get_goals` then reads back exactly that record. Every other user's record, the completed-goals table, the drive and the console are unchanged. One goals-table write is logged. Returns whether the write succeeded. |
| `Accounts.GoalService.RemoveGoal` | accounts.py:252-272 | Raises and changes nothing when the user has no record. Otherwise it writes the recomputed record (`Goals.Removed`) under the user, also when nothing matched, and returns whether the write succeeded. After a stored write, `get_goals` reads back that record. If the names were unique, `get_goal` for the removed name then finds nothing and the names stay unique. |
| `Accounts.GoalService.Payout` | accounts.py:157-181 | Logs one transfer request of the amount to the given wallet argument and changes no table. |
| `Accounts.GoalService.AddImageAsWritten` | accounts.py:323-330 | Models the code as written: the file goes under `name + ".jpg"` while `name` is returned, so the returned reference does not resolve unless the drive already held that name. Returns None when the upload fails. |
| `Accounts.GoalService.AddImage` | accounts.py:323-330 | Corrected upload: returns a name only when the upload succeeded, and that name then locates exactly the uploaded image. |
| `Accounts.GoalService.RemoveAndPay` | accounts.py:348-349 | For a found goal: the goal returned is the first one with the name. The recomputed record is written (stored only if the write succeeds). Then exactly one transfer of that goal's reward is requested, addressed to the username. |
| `Accounts.GoalService.UploadAndRecord` | accounts.py:350-360 | Uploads through `add_image` as written. A completion record `{username, goal, reward, image}` is appended (and its insert logged) exactly when the upload succeeded. The record's image name is not on the drive unless it was already there. |
| `Accounts.GoalService.UploadAndRecordCorrected` | accounts.py:350-360 | The same steps over the corrected upload. The record's image name then locates the uploaded image. |
| `Accounts.GoalService.CompleteGoal` | accounts.py:346-364 | With no record, the call raises and nothing is written. Fraud gate: an unknown goal prints the theft alert and changes nothing else; it makes no call and returns false. For a found goal, its removal is written (and stored only when the ledger write succeeds), then it is paid out once with its reward, then its image is uploaded by `add_image` as written; a completion record is appended only when the upload succeeded. Nothing is rolled back. The result is true exactly when the upload succeeded. The payout count grows by exactly 1 when the goal was found and by 0 otherwise. A recorded claim's image name is on the drive only if it already was. |
| `Accounts.GoalService.CompleteGoalCorrected` | accounts.py:346-364 | The same workflow and guarantees over the corrected upload. In addition, every record it appends names an image that is on the drive and holds the submitted bytes. |
| `Accounts.GoalService.ClaimTwiceAfterFailedWrite` | accounts.py:346-352 | Two claims of the same found goal in a row, the first with a failed ledger write: both claims pass the gate, each returns whether its upload succeeded, and exactly two payouts are requested in total. With no record or an unknown goal, no payout is requested. |
| `Accounts.GoalService.ClaimTwice` | accounts.py:346-352 | Two claims of the same goal in a row, the first with a successful ledger write, on a user whose goal names are unique: at most one payout is requested in total. Whenever the first claim returns normally (including when it found the goal but the image upload failed), the second is rejected. |

## Left out

- Wallet-provider HTTP calls (`create_wallet`, `get_address`, `get_balance`, and the body of `payout`) are network I/O. A payout is a `Transfer` entry in the call log. Its own success value is ignored by `complete_goal`, so it is not modelled.
- `check_username`, `login_user` and the salted SHA-256 password hashing form a credential store built on a foreign library.
- The read of `goals.json` and `random.shuffle`: the catalog and its shuffled permutation are inputs.
- Floating-point summation and `round(..., 2)`: rewards are integer cents.
- Errors raised by the key-value store on `get`, or by the completed-goals insert, are not modelled. Only the caught failures of the goals-table and drive writes are parameters.
- `get_goals` also returns `None` when the store raises. Only the missing-record case is modelled.
- The error messages printed in the except branches (accounts.py:237, 271, 290, 329) are not modelled. They carry the exception text, which the model does not have. Only the theft alert of accounts.py:363 goes to `console`.
- The model reads the drive's `put(image, f"{image_name}.jpg")` as "store `image` under the second argument". The drive library's signature is not part of this model. Under either argument order, no file is stored under the returned `image_name` (see Findings).
- Name collisions of two random image draws overwrite the earlier file in the model, as the drive does. The probability of such a collision is not modelled.
- The read-then-remove race between two concurrent completions of the same goal is a concurrency property, outside this sequential model.
- The web layer (`app.py`) is not part of this model.

## Findings

| source | as written | input that shows it | evidently intended | confidence | as-written member | corrected member |
|---|---|---|---|---|---|---|
| accounts.py:325-327 | `image_name` already ends in `.jpg`. The file is written with `f"{image_name}.jpg"` as its second argument, but `image_name` is what is returned and kept in the completion record | draw 7: returns `7.jpg`; the upload is keyed `7.jpg.jpg` (or, under the other argument order, by the image itself), so `7.jpg` names no file | store the file under the name that is returned, so the record's image reference locates it | high; not executed | `Accounts.GoalService.CompleteGoal` | `Accounts.GoalService.CompleteGoalCorrected` |
