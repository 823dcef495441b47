# Verified models of the test-infra tools

This project models the parts of the Knative `test-infra` repository that hold real algorithms and
protocols, and proves properties of the models with Dafny 4.11. `dafny verify dfyconfig.toml` checks
everything. Each module stands for one component:

| module | component |
|---|---|
| `Cleanup` | deleting resources of many projects at once, with a semaphore and an early stop |
| `RetryText`, `RetryCommands`, `Retryer`, `RetryRace` | the retryer of flaky tests, whose only memory is the comment it posted last: its text, the commands in it, its program and serialized runs, its concurrent handlers |
| `Clerk`, `Pool`, `Service` | the cluster pool service: its two tables, its protocol, its handlers |
| `ReleaseBranches`, `ReleaseWindow` | rolling the jobs of release branches forward, and which branches that leaves |
| `FlakyHistory`, `FlakyMerge`, `FlakyIssue`, `FlakyScans` | the issue of a flaky test and the history in its comment |
| `Location`, `Reconcile`, `ReconcileRuns` | reconciling benchmark clusters with their configurations, and what becomes of each of them on the way |
| `SemVer`, `GitRef` | choosing a ref for a release and naming the next one |
| `Depaginate` | listing a paged collection with retries |
| `Coverage` | summing coverage up and comparing two runs |
| `Text` | the string operations of Go these tools rely on |

Concurrent code (`Cleanup`, `RetryRace`, `Pool`, `Reconcile`) is a step relation over the program counters
of its goroutines, and its theorems speak of every schedule; where a step stands for several calls, "Left
out" says so. Code that changes variables step by step is a method or a class, proved against a
specification function; the theorems are about that function. Calls to GitHub, GKE, MySQL and Boskos
are adversarial: each may fail wherever the source has an error branch.

## How to read the results

Some promises hold under a condition only. Each is stated with the exact condition, or with an example
of what happens outside it:

* The retryer handles every message in a goroutine of its own, and the list, delete and create calls of
  several posts interleave. Its promises, at most three commands for a job at one commit (where no
  creation fails) and never more than one comment of its own, are kept by every run exactly as long as at
  most one post is in flight at a time (`RetryRace.PromiseIffAlone`, `RetryRace.OneCommentIffAlone`). Nothing in the source ensures that.
  With two in flight and no failing call, a handler that lists between another one's deletion and creation
  sends a command whatever was counted (`RetryRace.OverlapSendsAgain`), and two that list an empty
  conversation both create, after which the retryer falls silent (`RetryRace.OverlapDoublesComment`,
  `RetryRace.TwoCommentsSilence`).
* One post at a time, the commands sent to a job are exactly what its counter grew by plus what lost
  comments had counted (`Retryer.CounterLaw`), so there are at most three if and only if no more was wiped
  than the counter has left (`Retryer.AtMostThreeIff`). A comment is lost when it is deleted and its
  successor cannot be created; the bound of three commands for each loss and three more is reached for
  every number of losses (`Retryer.LossBoundReached`).
* A command is a line `/test` and a job in the text of a comment created, and commands are counted by
  that text. A failed test that is named like such a line adds a command of its own
  (`Retryer.BodyCommands`, `Retryer.OutlierCommands`); the bounds are for names without.
* The table in the comment is read back as printed if and only if nothing below it looks like a row
  (`RetryText.RowsReadBackIff`); the name of a failed test can forge one (`RetryText.OutlierForgesRow`).
* The pool serves nobody ahead of a strictly older request (`Pool.NoOvertaking`); between requests of
  the same instant the rank does not decide (`Pool.EqualTimesCompete`).
* Once its handlers have returned, the pool has released every project it acquired or keeps a row for it
  that is not Failed, except where the INSERT of that row failed (`Pool.NoProjectForgotten`).
* The run theorems about a flaky issue ask that each scan is new to the comment. That follows from the
  scans when their last builds started at different times and neither links, summaries nor the marker of
  the comment imitate its caption (`FlakyScans.DistinctScansAreNews`). Where records repeat, the comment
  holds exactly what `FlakyIssue.HistoryWithRepeats` says: a repeated record pushes the oldest out as soon
  as the list is full, unless it is itself the oldest (`FlakyMerge.RepeatedRecordKeepsIff`). A scan that
  passes on a closed issue writes no record, so "all records" are those of the scans that wrote the
  comment.
* Where no cluster is just being created or deleted by another job, reconciling converges if and only if
  no second cluster of a name sits where that name is configured to be (`Reconcile.ConvergesIff`), for locations that survive being taken apart and put together again,
  which are characterised exactly by `Location.ResolveExactIff`. Under the same condition on each cluster,
  a run without errors deletes exactly those that no other job is busy with and that are not kept as they
  are (`ReconcileRuns.DeletedIff`). For a regional cluster "the configured
  node count" means the total divided by three and rounded down, as in the source.
* The next release is new and of higher precedence unless the greatest patch number was released and
  wraps around (`GitRef.NextReleaseIsNewIff`, `GitRef.NextReleaseIsHigherIff`), and the tag it continues is a real one
  except on line 0.0, where unparsable tags count as 0.0.0 (`GitRef.PickedTagIsRealIff`).

Where the code and its own comments disagree, the model follows the code:

* `addLink` says it keeps the latest three links; it appends (tools/flaky-test-retryer/github_commenter.go:70-80).
* The comment in `createHistoryUnicode` promises no duplicate records; the record of the current scan is
  not compared with the old ones (tools/flaky-test-reporter/github_issue.go:179-190).
* `RegionZoneFromLoc` speaks of more than two dashes; two are enough (pkg/gke/location.go:35-38), and
  `TrimRight` takes a set of characters, not a suffix.
* `retry` says it tries `maxRetries` times; it makes up to `maxRetries + 1` calls (pkg/ghutil/client.go:128-134).
* The error for too few nodes says "larger than 1"; one node is accepted (pkg/gke/request.go:94-96).

## Model

| member | source | states |
|---|---|---|
| Cleanup.ErrorsStayWithinLimit | tools/cleanup/cleanup.go:286-312 | at every moment of every schedule the semaphore counts exactly the workers inside, at most the limit; once an error is reported, errors and deleters in flight together stay within the limit, so at most that many errors are ever reported |
| Cleanup.LimitErrorsReached | tools/cleanup/cleanup.go:300-309 | the bound on errors is tight: a schedule exists that reports as many errors as the limit |
| Cleanup.Progress | tools/cleanup/cleanup.go:295-315 | in every reachable state either all workers are done or one of them can move: nobody is stuck |
| Cleanup.NoSlotDeadlock | tools/cleanup/cleanup.go:287-300 | with a limit of zero nothing ever moves, so the condition of Progress is exact |
| Cleanup.EveryScheduleEnds | tools/cleanup/cleanup.go:295-314 | no schedule is longer than five steps a project |
| Cleanup.EveryScheduleResult | tools/cleanup/cleanup.go:294-333 | when all workers are done: each project ran at most once, the 32-bit count is the sum over those that ran up to multiples of 2^32, the errors are exactly theirs, and there are none if and only if every project ran and succeeded |
| Cleanup.Collect | tools/cleanup/cleanup.go:317-332 | the messages returned are those received, sorted and without repetition |
| Cleanup.Delete | tools/cleanup/cleanup.go:282-334 | for any choice of the scheduler the function returns a result as EveryScheduleResult describes, with at most as many messages as the limit |
| RetryText.RowRoundTrip | tools/flaky-test-retryer/github_commenter.go:66-102 | a printed row is read back as the entry it was printed from |
| RetryText.OldRowRead | tools/flaky-test-retryer/github_commenter.go:82-102 | a row of the older format, without links, is read as the counter it holds |
| RetryText.RowFoundIff | tools/flaky-test-retryer/github_commenter.go:49-68 | the search finds a printed row if and only if its counter has one digit |
| RetryText.FindAllComplete | tools/flaky-test-retryer/github_commenter.go:184-187 | the model of the regular expression misses nothing: no result means no match anywhere |
| RetryText.CommentRoundTrip | tools/flaky-test-retryer/github_commenter.go:184-228 | the table read from a printed comment is the table it was printed from |
| RetryText.RowsReadBackIff | tools/flaky-test-retryer/github_commenter.go:184-228 | the rows found are those printed if and only if the text below the table contains no cell of a counter, a bar followed by digit, slash, digit |
| RetryText.NoRetryTextNoCellIff | tools/flaky-test-retryer/github_commenter.go:240-250 | the list of failed tests contains no such text exactly if none of the tests printed does |
| RetryText.OutlierForgesRow | tools/flaky-test-retryer/github_commenter.go:184-250 | a failed test named like a row resets the counter of that job |
| RetryText.MarkerRoundTrip | tools/flaky-test-retryer/github_commenter.go:43-47 | the commit in the marker of a printed comment is read back |
| RetryCommands.CommentCommands | tools/flaky-test-retryer/github_commenter.go:199-228 | of the printed comment only the last part holds commands; neither marker nor table do |
| RetryText.WithLinkAppends | tools/flaky-test-retryer/github_commenter.go:71-80 | a link is appended to the links there are, however many |
| RetryText.KeepsThreeLinksIff | tools/flaky-test-retryer/github_commenter.go:70-80 | the promise to keep at most three links holds exactly while there were at most two |
| Retryer.JobEntry.AddLink | tools/flaky-test-retryer/github_commenter.go:71-80 | the entry is changed in its links alone, by appending |
| Retryer.ParseTable | tools/flaky-test-retryer/github_commenter.go:184-195 | fails exactly if a row found cannot be read, and else builds the table, a later row replacing an earlier one of its name |
| Retryer.BuildRetryString | tools/flaky-test-retryer/github_commenter.go:232-237 | counts the retry in place and returns a command while the counter stays within three |
| Retryer.PrintRows | tools/flaky-test-retryer/github_commenter.go:222-227 | prints all rows in the order of their names, linking the row of the job at hand on the way |
| Retryer.BuildNewComment | tools/flaky-test-retryer/github_commenter.go:199-228 | the body posted is the printed form of the updated table with the text of the decision, and the entries now hold that table |
| Retryer.BodyCommands | tools/flaky-test-retryer/github_commenter.go:199-250 | whatever failed tests are named: the body of a post commands its own job exactly if the counter read was below three and no failed test is given, and else exactly what a failed test it lists commands |
| Retryer.OutlierCommands | tools/flaky-test-retryer/github_commenter.go:240-250 | a failed test named like a command is one |
| Retryer.GithubClient.GetOldComment | tools/flaky-test-retryer/github_commenter.go:156-180 | finds the one comment of the bot in one of its formats, none, or reports that there are several |
| Retryer.MineIff | tools/flaky-test-retryer/github_commenter.go:156-180 | the comments the retryer takes for its own are those of its account with one of its two marks |
| Retryer.GithubClient.PostComment | tools/flaky-test-retryer/github_commenter.go:120-152 | what one post leaves in a conversation nobody else touches meanwhile, for every failing call and for dry runs |
| Retryer.PostRemembers | tools/flaky-test-retryer/github_commenter.go:120-152 | such a post, when it succeeds, leaves exactly one comment of the bot; the next run reads from it the table with the row of the job changed and all other rows untouched; and its text has a line `/test` and a job for the job at hand if the counter read was below three and no failed test stands against it, and for no other |
| Retryer.OthersAreLeftAlone | tools/flaky-test-retryer/github_commenter.go:120-152 | whatever happens, no post removes a comment of another account |
| Retryer.ForgedCommentIgnored | tools/flaky-test-retryer/github_commenter.go:156-180 | a comment of another account does not change what is posted, even if it imitates the retryer |
| Retryer.OneStep | tools/flaky-test-retryer/github_commenter.go:120-237 | in serialized runs no event but a sent command changes the counter of a job, and that by one, unless a creation fails |
| Retryer.CounterLaw | tools/flaky-test-retryer/github_commenter.go:120-237 | over every serialized run at one commit, whatever calls fail: counter before plus commands sent equals counter after plus what the comments lost had counted, for each job |
| Retryer.AtMostThreeIff | tools/flaky-test-retryer/github_commenter.go:120-237 | at a new commit a job is sent at most three commands if and only if no more was wiped than its counter has left |
| Retryer.AtMostThreeRetries | tools/flaky-test-retryer/github_commenter.go:120-237 | without a failing creation the comments created command a job as often as its counter grew, at most three times |
| Retryer.ThreeRetriesPerLoss | tools/flaky-test-retryer/github_commenter.go:120-152 | failing calls included, a job is sent at most three commands, and three more for each comment lost |
| Retryer.LostComment | tools/flaky-test-retryer/github_commenter.go:145-151 | a creation that fails after the deletion loses every counter |
| Retryer.LossBoundReached | tools/flaky-test-retryer/github_commenter.go:145-151 | that bound is reached for every number of losses |
| Retryer.LostCommentExceedsRetries | tools/flaky-test-retryer/github_commenter.go:145-151 | a run with one comment lost that sends a job four commands |
| Retryer.FreshCommit | tools/flaky-test-retryer/github_commenter.go:125-136 | after any serialized run at one commit that posted something, every counter at any other commit is zero, and the next run there can start |
| RetryRace.PostAlone | tools/flaky-test-retryer/handler.go:78-78 | left alone, the list, delete and create calls of a handler are one post, whichever of them fails |
| RetryRace.CreateCall | tools/flaky-test-retryer/github_commenter.go:145-151 | the creation of a handler that is alone in flight is a whole serialized post |
| RetryRace.Serialized | tools/flaky-test-retryer/handler.go:70-83 | with at most one post in flight every interleaving is a serialized run: the same commands in the same order, and the same comments of the bot between posts |
| RetryRace.AtMostThreeAlone | tools/flaky-test-retryer/handler.go:70-83 | one post at a time and no creation failing: each job is sent at most three commands, at rest as many as its counter grew |
| RetryRace.LawAlone | tools/flaky-test-retryer/github_commenter.go:120-152 | one post at a time, failing creations included: the exact law of the serialized runs holds for the interleaved ones |
| RetryRace.OneCommentAlone | tools/flaky-test-retryer/github_commenter.go:120-180 | one post at a time and no creation failing: at rest after a post there is exactly one comment of the bot |
| RetryRace.OverlapSendsAgain | tools/flaky-test-retryer/handler.go:78-78 | from every state with a comment: a list between the deletion and the creation of another handler sends a command whatever was counted, no call failing |
| RetryRace.OverlapDoublesComment | tools/flaky-test-retryer/handler.go:78-78 | two handlers that both list an empty conversation leave two comments, no call failing |
| RetryRace.TwoCommentsSilence | tools/flaky-test-retryer/github_commenter.go:168-180 | with two comments of the bot every later post gives up |
| RetryRace.PromiseIffAlone | tools/flaky-test-retryer/handler.go:70-83 | every run with at most so many posts in flight keeps the promise of three commands if and only if that number is at most one |
| RetryRace.OneCommentIffAlone | tools/flaky-test-retryer/handler.go:70-83 | the same for never more than one comment, at any moment |
| Clerk.DBClient.CheckAvail | tools/dkcm/clerk/clerk.go:113-125 | finds a Ready cluster of the configuration if and only if there is one |
| Clerk.DBClient.GetRequest | tools/dkcm/clerk/clerk.go:268-277 | finds a request by its token if and only if there is one |
| Clerk.DBClient.UpdateRequest | tools/dkcm/clerk/clerk.go:261-265 | sets the cluster of one request and changes nothing else |
| Clerk.DBClient.UpdateCluster | tools/dkcm/clerk/clerk.go:167-171 | sets the status of one cluster and changes nothing else |
| Clerk.DBClient.InsertCluster | tools/dkcm/clerk/clerk.go:143-156 | adds a WIP row with the next number, or fails when the numbers are used up |
| Clerk.DBClient.DeleteCluster | tools/dkcm/clerk/clerk.go:194-208 | succeeds exactly for the call that removes the row |
| Clerk.DBClient.ClearTimeOut | tools/dkcm/clerk/clerk.go:317-322 | row by row: a request that waits and is old enough becomes -1 with its other columns unchanged, every other row keeps its value, no row comes or goes |
| Clerk.GrantableWaits | tools/dkcm/clerk/clerk.go:301-314 | a request that does not wait has a rank no number of Ready clusters reaches |
| Clerk.GrantableIff | tools/dkcm/clerk/clerk.go:301-314 | in rows, without the rank: a cluster may be given to a request exactly if the request waits, the cluster is Ready and of its configuration, and the waiting requests of that configuration that came strictly earlier are fewer than its Ready clusters |
| Clerk.GrantWrites | tools/dkcm/mainservice/mainservice.go:183-184 | a grant writes the cluster into the request and In Use into the cluster, and nothing else |
| Clerk.DBClient.AssignCluster | tools/dkcm/mainservice/mainservice.go:166-195 | hands out a Ready cluster of the configuration if and only if some cluster may be given to the request, as GrantableIff says in rows, and records it in both tables as GrantWrites says |
| Service.HandleCleanCluster | tools/dkcm/mainservice/mainservice.go:77-100 | the handler takes exactly the steps of a cleaner of the protocol; when no call fails, the row the token names is deleted and its project released, and success is reported only after a release |
| Service.MarkBroken | tools/dkcm/mainservice/mainservice.go:147-157 | a failed creation marks its row Failed and then releases its project; if it cannot be marked, nothing is released |
| Service.CreateCluster | tools/dkcm/mainservice/mainservice.go:120-163 | the handler takes exactly the steps of a creator of the protocol: the row it inserts ends Ready if the cluster was built, Failed with the project released if not, and WIP if it could not be marked |
| Pool.HoldStep | tools/dkcm/mainservice/mainservice.go:77-195 | no step breaks the relation between In Use rows and the requests that hold them |
| Pool.LeaseStep | tools/dkcm/mainservice/mainservice.go:77-163 | no step puts an acquisition into a second hand |
| Pool.GrantsAreExclusive | tools/dkcm/mainservice/mainservice.go:166-195 | in every run each In Use row is held by exactly one request, of the same zone, nodes and type, and no request is granted twice |
| Pool.DecidedStaysDecided | tools/dkcm/clerk/clerk.go:301-322 | a granted or timed-out request stays as it is in every continuation; a timed-out one is never granted |
| Pool.ReleasedAtMostOnce | tools/dkcm/mainservice/mainservice.go:77-163 | in every interleaving of the single calls each acquired project is released at most once, and never while a row that is not Failed stands for it |
| Pool.NoProjectForgotten | tools/dkcm/mainservice/mainservice.go:77-163 | in every interleaving, once all handlers have returned: each acquired project was released or stands behind a row that is not Failed, except those whose INSERT failed |
| Pool.HandBack | tools/dkcm/mainservice/mainservice.go:77-100 | from every state in which a request holds a cluster, a handler left alone deletes its row and releases its project |
| Pool.EntitledAfterGrantIff | tools/dkcm/mainservice/mainservice.go:173-184 | exactly when another waiting request can still be served after a grant |
| Pool.EntitledIff | tools/dkcm/mainservice/mainservice.go:173-184 | a waiting request has a rank within the Ready clusters exactly if one of them may be given to it |
| Pool.NoOvertaking | tools/dkcm/mainservice/mainservice.go:173-184 | when a younger request is served, every strictly older one of the same configuration still waits, and a cluster is there that may be given to it at once |
| Pool.EqualTimesCompete | tools/dkcm/clerk/clerk.go:301-314 | between requests of the same instant the one served first may take the last cluster |
| Pool.ServableUntilServed | tools/dkcm/mainservice/mainservice.go:166-195 | over whole runs, a request that may be served may be served until it is, or times out, unless an older request arrives or one of the same instant is served |
| Pool.ServedRun | tools/dkcm/mainservice/mainservice.go:120-195 | from an empty pool a request can be served: a run creates a cluster of its configuration and gives it to it |
| ReleaseBranches.SortVersions | tools/config-generator/udpaterelease.go:190-206 | sorts by version, descending, losing nothing |
| ReleaseBranches.GetBranch | tools/config-generator/udpaterelease.go:162-188 | assigns a job to at most one kind, by its last `release` item |
| ReleaseBranches.UpdateConfigForJob | tools/config-generator/udpaterelease.go:125-160 | fails exactly on a malformed version, and else is a pass over the jobs; which jobs stay and which are copied is said by ReleaseWindow |
| ReleaseBranches.CollectBranches | tools/config-generator/udpaterelease.go:86-102 | collects the branches of both kinds and whether the newest is among them |
| ReleaseBranches.RewriteRepo | tools/config-generator/udpaterelease.go:85-118 | rewrites one repository, failing exactly on the inputs on which the source exits |
| ReleaseBranches.GetReposMap | tools/config-generator/udpaterelease.go:66-123 | rewrites every repository of the array in place, or fails exactly if one of them cannot be rewritten |
| ReleaseBranches.CopyBranch | tools/config-generator/udpaterelease.go:145-154 | the copy of a job is of the same kind and for the newest branch |
| ReleaseBranches.PassKeepsOtherKind | tools/config-generator/udpaterelease.go:104-118 | a pass over one kind leaves the branches of the other as they are |
| ReleaseBranches.PassesCommute | tools/config-generator/udpaterelease.go:104-118 | the two passes have the same results in either order, on every job list |
| ReleaseBranches.UpdateSettles | tools/config-generator/udpaterelease.go:104-160 | after a pass its kind needs no further update |
| ReleaseBranches.RewriteIsIdempotent | tools/config-generator/udpaterelease.go:66-160 | rewriting twice equals rewriting once, for every order the unstable sort may leave equal versions in |
| ReleaseBranches.AtMostFourVersions | tools/config-generator/udpaterelease.go:125-160 | at most four versions of a kind are left after its update |
| ReleaseBranches.UpdateKeepsOrder | tools/config-generator/udpaterelease.go:133-157 | apart from the copies, an update is the old list without the jobs outside the window (ReleaseWindow.StaysIff), in the old order; the copies are those of the newest jobs, in their order |
| ReleaseWindow.BranchIff | tools/config-generator/udpaterelease.go:162-188 | in items: a job is for a branch of a kind exactly if every `release` item is a string or a list of one, the last of them names that branch, and the job is marked `branch-ci`, or `dot-release` alone for the other kind |
| ReleaseWindow.VersionRead | tools/config-generator/udpaterelease.go:190-206 | a branch named by two numbers is read as that version |
| ReleaseWindow.StaysIff | tools/config-generator/udpaterelease.go:125-144 | with three branches of the kind or more, a job of the kind stays exactly if fewer than three of them, repetitions counted, are newer than its own; with fewer, exactly if its version is not below 0.0 |
| ReleaseWindow.OthersStay | tools/config-generator/udpaterelease.go:133-140 | a job that is not of the kind stays |
| ReleaseWindow.CopiesAreOfNewest | tools/config-generator/udpaterelease.go:145-157 | every job for the new branch is the copy of a job than whose branch none is newer |
| ReleaseWindow.NewestIsCopied | tools/config-generator/udpaterelease.go:145-157 | every job for a branch that is newer than all others is copied |
| FlakyHistory.SkipText | tools/flaky-test-reporter/github_issue.go:83-83 | a search for records passes over text that holds no time stamp |
| FlakyHistory.TakeRecord | tools/flaky-test-reporter/github_issue.go:83-83 | a search takes a record that has a line of its own, whole |
| FlakyHistory.HistoryRoundTrip | tools/flaky-test-reporter/github_issue.go:179-207 | the records of a printed history are read back as printed, in order, across the fold after the tenth |
| FlakyHistory.RunsAreTold | tools/flaky-test-reporter/github_issue.go:163-177 | no two lists of results and links are printed alike, so a record tells how every build went |
| FlakyHistory.LegendExplains | tools/flaky-test-reporter/github_issue.go:80-81 | the legend under the history gives passed, failed and skipped the icons the records use |
| FlakyHistory.FoldIff | tools/flaky-test-reporter/github_issue.go:200-204 | records are folded away exactly if there are more than ten, and the first ten stand before the fold |
| FlakyMerge.BuildRecord | tools/flaky-test-reporter/github_issue.go:163-177 | the record holds one linked icon for each build, in order |
| FlakyMerge.UniqueEntries | tools/flaky-test-reporter/github_issue.go:179-187 | the old records without the closing token and without repetition |
| FlakyMerge.CreateHistory | tools/flaky-test-reporter/github_issue.go:162-207 | the new history is that of the old records and the new one, greatest first, cut at sixty |
| FlakyMerge.TopInsert | tools/flaky-test-reporter/github_issue.go:188-197 | cutting before or after an insertion leaves the same sixty records |
| FlakyMerge.TopIs | tools/flaky-test-reporter/github_issue.go:188-197 | the records kept are sixty or all of them, greatest first, and every record left out is smaller than each of them |
| FlakyMerge.MergeKeepsTop | tools/flaky-test-reporter/github_issue.go:179-197 | if the comment holds the sixty greatest records of a set and the new record is not among them, the next comment holds the sixty greatest including the new one |
| FlakyMerge.WriteRemembers | tools/flaky-test-reporter/github_issue.go:179-197 | what the new comment remembers depends on the set of old records and the new one alone, in all cases, also where the old comment holds a record twice |
| FlakyMerge.RepeatedRecordKeepsIff | tools/flaky-test-reporter/github_issue.go:179-197 | a repeated record costs none exactly if there is room or it is the oldest itself |
| FlakyIssue.StatusRead | tools/flaky-test-reporter/github_issue.go:85-90 | the status a comment was written with is read back |
| FlakyIssue.GithubIssue.UpdateIssue | tools/flaky-test-reporter/github_issue.go:211-273 | edits, closes and reopens the issue as its old comment and the new scan demand, and stops at an unknown status or at the call that fails |
| FlakyIssue.ProcessTest | tools/flaky-test-reporter/github_issue.go:499-545 | what one scan of a test does to the issue tracked for it; OneMoreScan and TwoPassesClose say it in counts |
| FlakyIssue.IrrelevantScansVanish | tools/flaky-test-reporter/result.go:62-91 | removing from a sequence all scans that failed in every build, and all that had no failure and too few passes, leaves the issue as it is |
| FlakyIssue.OneMoreScan | tools/flaky-test-reporter/result.go:62-91 | over runs and in counts: a scan that failed in every build, or had no failure and too few passes, leaves the issue as it is; one that both passed and failed leaves an open issue |
| FlakyIssue.TwoPassesClose | tools/flaky-test-reporter/github_issue.go:229-254 | in counts: where there is an issue, two scans in a row without failure and with enough runs leave it closed; one of them after a flaky scan leaves it open |
| FlakyIssue.ScanTwice | tools/flaky-test-reporter/github_issue.go:499-524 | processing a scan a second time changes nothing, whatever the issue was |
| FlakyIssue.OldIssueIsReplaced | tools/flaky-test-reporter/github_issue.go:499-545 | a flaky scan that finds its issue closed long ago opens a new one that remembers nothing of it |
| FlakyIssue.AfterTracks | tools/flaky-test-reporter/github_issue.go:211-273 | after every sequence of scans each new to the comment (AllNews): the state of the issue and the status in its comment are determined by the passes and failures among them |
| FlakyIssue.ClosedIffLastTwoPassed | tools/flaky-test-reporter/github_issue.go:211-273 | over every sequence of scans each new to the comment (AllNews) there is an issue exactly if one was flaky, and it is closed exactly if the last two that were Flaky or Passed were both Passed |
| FlakyIssue.FailedCloseIsMadeUp | tools/flaky-test-reporter/github_issue.go:229-254 | a closing that failed is made up for by the next passing scan |
| FlakyIssue.WrittenRecords | tools/flaky-test-reporter/github_issue.go:499-524 | the comment of one scan, read again, holds the sixty greatest records including its own |
| FlakyIssue.HistoryIsComplete | tools/flaky-test-reporter/github_issue.go:162-207 | over every sequence of scans each new to the comment with a record not yet remembered (AllNews, FreshRecords), the records read from the comment are the sixty greatest of all ever written to it, in descending order |
| FlakyIssue.HistoryWithRepeats | tools/flaky-test-reporter/github_issue.go:162-207 | the same without the condition on records: the comment holds exactly the records remembered, never more than sixty |
| FlakyScans.DistinctScansAreNews | tools/flaky-test-reporter/github_issue.go:499-512 | scans whose last builds started at different times, with links and summaries that do not imitate the caption, are news each of them and bring fresh records: the conditions of the run theorems follow from the scans alone |
| FlakyScans.OtherScanAbsent | tools/flaky-test-reporter/github_issue.go:142-159 | the text of a scan of another time is not contained in the comment of a scan |
| FlakyScans.IssueOfDistinctScans | tools/flaky-test-reporter/github_issue.go:162-273 | for such scans the issue is closed exactly if the last two that were Flaky or Passed were both Passed, and its comment holds the sixty greatest records |
| FlakyScans.NoonScans | tools/flaky-test-reporter/github_issue.go:211-273 | such scans exist: flaky, passed, passed closes the issue, and a further flaky one opens it |
| Location.ResolveExactIff | pkg/gke/location.go:24-44 | taking a location apart and putting it together again gives the same location exactly if it has at most one dash, or a zone whose region does not end in a dash or a character of the zone |
| Location.OverTrimmed | pkg/gke/location.go:39-41 | a location, of a form GKE does not use, for which operations would go elsewhere |
| Reconcile.BelongsIff | pkg/clustermanager/perf-tests/pkg/benchmark.go:128-150 | the clusters of a repo are exactly those named as its benchmarks name theirs |
| Reconcile.ExistingHandlers | pkg/clustermanager/perf-tests/pkg/cluster.go:138-151 | each cluster is handled with the configuration of its name, the first of a name taking it out of the map |
| Reconcile.NewHandlers | pkg/clustermanager/perf-tests/pkg/cluster.go:153-165 | every configuration left gets exactly one handler, in any order |
| Reconcile.ProcessClusters | pkg/clustermanager/perf-tests/pkg/cluster.go:122-165 | the handlers of a whole run |
| Reconcile.Gke.DeleteClusterWithRetries | pkg/clustermanager/perf-tests/pkg/cluster.go:231-247 | the loop is a run of deletion steps: at least one call, at most three, and three if all of them failed |
| Reconcile.Gke.CreateClusterWithRetries | pkg/clustermanager/perf-tests/pkg/cluster.go:252-294 | the loop is a run of creation steps, broken clusters being deleted before the next try; a request without name, nodes or node type fails before any call, and every other makes three tries before it fails |
| Reconcile.Gke.HandleExistingCluster | pkg/clustermanager/perf-tests/pkg/cluster.go:178-210 | the handler is a run of its step relation, and reports an error exactly if that run failed; no call is made exactly if the cluster is just being created or deleted, or may be retained and is at its configured location with its configured nodes |
| Reconcile.InvStep | pkg/clustermanager/perf-tests/pkg/cluster.go:141-169 | no step of a handler undoes what another one achieved or touches a cluster nobody handles |
| Reconcile.Convergence | pkg/clustermanager/perf-tests/pkg/cluster.go:95-210 | for every order of the handlers and every pattern of failing calls: if no error is returned, exactly the configured clusters are left, at the configured location and node count, and clusters of other repos are untouched |
| Reconcile.SecondRunIdle | pkg/clustermanager/perf-tests/pkg/cluster.go:95-210 | after that a second run finds nothing to do |
| Reconcile.LateDuplicateLosesCluster | pkg/clustermanager/perf-tests/pkg/cluster.go:139-150 | with a second cluster of a name where that name is configured to be, a run without errors loses the configured cluster |
| Reconcile.ConvergesIff | pkg/clustermanager/perf-tests/pkg/cluster.go:95-210 | every run without errors converges if and only if there is no such cluster |
| Reconcile.RunsAreBounded | pkg/clustermanager/perf-tests/pkg/cluster.go:231-294 | however calls fail, a run is over after fifteen steps for each handler |
| ReconcileRuns.SomeRunSucceeds | pkg/clustermanager/perf-tests/pkg/cluster.go:95-294 | where no cluster is busy and every configuration has a node and a node type, a run without errors exists; it ends converged if no name is there twice where it is configured |
| ReconcileRuns.DeletedIff | pkg/clustermanager/perf-tests/pkg/cluster.go:178-210 | for every run without errors, with any order and any failing calls, and a cluster that is no late duplicate: it is missing in some state on the way exactly if it is not being created or deleted by another job and not kept, as the first of its name at its configured location with its configured nodes in a run that retains such clusters |
| ReconcileRuns.Recreated | pkg/clustermanager/perf-tests/pkg/cluster.go:76-86 | when clusters are recreated, every cluster no other job is busy with is deleted on the way of a run without errors, unchanged or not |
| ReconcileRuns.Retained | pkg/clustermanager/perf-tests/pkg/cluster.go:95-105 | when clusters are reconciled, one that is the first of its name, at its configured location and with its configured nodes is there unchanged in every state of every run, errors or not |
| ReconcileRuns.KeptThroughout | pkg/clustermanager/perf-tests/pkg/cluster.go:185-205 | the same for clusters another job is creating or deleting, unless an earlier one of that name is to be created there |
| SemVer.NumeralIff | vendor/github.com/blang/semver/v4/semver.go:283-293 | a number is accepted exactly if it is the printed form of a number in range |
| SemVer.SplitNJoin | vendor/github.com/blang/semver/v4/semver.go:276-279 | the parts of a version, joined, are the version |
| SemVer.PlainIff | vendor/github.com/blang/semver/v4/semver.go:271-357 | a text is read as a plain version exactly if it is that version printed |
| SemVer.TolerantPrinted | vendor/github.com/blang/semver/v4/semver.go:240-268 | the tolerant parser reads a printed tag as the strict one reads its version |
| SemVer.TolerantShort | vendor/github.com/blang/semver/v4/semver.go:240-268 | a release named by two numbers, as `v1.2`, is read as its first version |
| GitRef.LargestOfTags | pkg/git/git.go:97-114 | the loop finds the greatest plain version of the line among the tags |
| GitRef.LargestOfBranches | pkg/git/git.go:120-134 | the loop finds the greatest version of the line among the release branches |
| GitRef.BestRefFor | pkg/git/git.go:95-147 | a release, a release branch, the default branch or nothing, as the rule allows |
| GitRef.BestRefOrder | pkg/git/git.go:95-147 | for each ruleset, outside line 0.0: a release of the line if there is one and the rule allows it, the greatest; else the release branch of the line if there is one and the rule allows it; else the default branch or nothing |
| GitRef.PickedIsMax | pkg/git/git.go:97-117 | every plain release tag of the line is at most the version picked |
| GitRef.PickedTagIsRealIff | pkg/git/git.go:97-117 | the tag picked is the maximum of its line, and one of the repository's exactly if the line is not 0.0 or has a plain tag |
| GitRef.ParseRefOfRelease | pkg/git/git.go:178-197 | a ref to a release is taken apart into what it was made of |
| GitRef.ReleaseStatus | pkg/gomod/release_meta.go:39-95 | the release branch and the next release of a module, or an error if the release asked for is no version |
| GitRef.NextReleaseIs | pkg/gomod/release_meta.go:79-88 | the next release is the successor of the release picked, though it went through text twice |
| GitRef.NextReleaseIsNewIff | pkg/gomod/release_meta.go:79-88 | the next release is not among the tags, exactly unless the greatest patch number was released and patch 0 as well |
| GitRef.NextReleaseIsHigherIff | pkg/gomod/release_meta.go:79-88 | it takes precedence over every plain tag of its line exactly if the greatest patch number was not released |
| GitRef.BranchFoundIff | pkg/gomod/release_meta.go:61-77 | the release branch is reported exactly if it is there |
| GitRef.AtInPath | pkg/git/git.go:178-182 | with an `@` in the module path, which Go module paths do not hold, the proposal would be v0.0.1 |
| Depaginate.Listing.Wrapper | pkg/ghutil/client.go:152-158 | the items of a success are appended once |
| Depaginate.Listing.Retry | pkg/ghutil/client.go:130-147 | repeats a call while the rate limit strikes, at most `maxRetries + 1` times in all |
| Depaginate.Listing.Depaginate | pkg/ghutil/client.go:150-173 | what is collected is the concatenation of the pages fetched, and all of them on success |
| Depaginate.SucceedsIff | pkg/ghutil/client.go:130-173 | a listing succeeds exactly if the calls start with a success for each page, no failure among them, and never more than `maxRetries` rate limits in a row |
| Depaginate.CollectsPrefix | pkg/ghutil/client.go:160-172 | whatever the outcomes: whole pages from the first on, all of them exactly on success, with at most `maxRetries + 1` calls a page |
| Depaginate.ConcatLength | pkg/ghutil/client.go:152-158 | every item of every page is found in the list, after those of the pages before |
| Coverage.CoverageList.AddToGroupCov | tools/coverage/calc/base.go:43-54 | a block is added to the last file of the group, or starts a new one |
| Coverage.UpdateConcernedFiles | tools/coverage/calc/base.go:57-74 | a file is concerned as the presubmit table says, or else unless it is skipped, whatever was asked before |
| Coverage.CovList | tools/coverage/calc/calc.go:45-66 | the group and the key profile hold exactly the blocks whose path is given in a presubmit run, and is not skipped in any other |
| Coverage.CoverageList.Summarize | tools/coverage/calc/group.go:88-93 | adds the sums over the group to the totals there are |
| Coverage.CoverageList.Subset | tools/coverage/calc/group.go:120-129 | the files with a prefix, in order, and their sums |
| Coverage.CoverageList.Map | tools/coverage/calc/group.go:133-139 | the entries by name |
| Coverage.StatementsConserved | tools/coverage/calc/base.go:43-54 | for every choice of files the statements, and the covered ones, of a group are those of its blocks, in any order of the blocks |
| Coverage.KeptSums | tools/coverage/calc/calc.go:53-63 | only blocks of concerned files count |
| Coverage.CoveredWithinAll | tools/coverage/calc/base.go:49-53 | no file and no group has more covered statements than statements |
| Coverage.DistinctNamesIff | tools/coverage/calc/base.go:43-48 | a group has one entry for each file exactly if the blocks of each file are next to each other |
| Coverage.RatioStable | tools/coverage/calc/group.go:88-93 | after any number of calls the totals are that multiple of the sums, and the ratio is that of the group |
| Coverage.GroupRatio | tools/coverage/calc/group.go:73-80 | however often the list was summarized before, the answer is the ratio of the group |
| Coverage.RatioIs | tools/coverage/calc/base.go:126-133 | the ratio times all statements is the covered statements; it is between 0 and 1 for counts in order, and missing exactly where there are no statements |
| Coverage.Sorted | tools/coverage/calc/delta.go:70-81 | the values of a map in the order of their keys |
| Coverage.NewGroupChanges | tools/coverage/calc/delta.go:85-120 | the four lists, the leftover of the base being the deleted files |
| Coverage.ComparedIs | tools/coverage/calc/delta.go:89-111 | for distinct names: each new file is in exactly one of Unchanged and Changed, by its ratio alone, and Added holds exactly the files the base lacks |
| Coverage.SameRatioIff | tools/coverage/calc/delta.go:35-39 | two files are Unchanged exactly if their counts are in proportion, one without statements counting as not covered |
| Coverage.DeletedIs | tools/coverage/calc/delta.go:98-116 | Deleted holds exactly the files of the base that are gone, in order of their names |
| Coverage.FilesBalance | tools/coverage/calc/delta.go:85-120 | the files of the base and those added are as many as the new files and those deleted |

## Left out

- Service.CreateCluster: `wg.Done` and the wait group of `checkPoolCap` are not modelled; the pool capacity check itself blocks on its unbuffered channel (tools/dkcm/mainservice/mainservice.go:104-116) and never starts a creation, so creations are steps of the environment.
- Clerk.DBClient.AssignCluster: one atomic step; the source reads and writes in separate statements without a transaction and ignores errors of its two updates.
- Clerk.DBClient.GetRequest: tokens are unique by construction; the schema does not say so, and any of several rows may be returned.
- Retryer.GithubClient.PostComment: the method is one post without interference; RetryRace splits it into its three calls. A call that fails has no effect; a deletion or creation that takes effect and is reported as failed is not modelled.
- RetryRace.Serialized: one pull request; what a handler does before its post (reading the pull request and the test results) is given, and a process that dies between two calls is a handler that stays in flight.
- FlakyIssue.ProcessTest: one test with one issue, no manual edits and no failing GitHub calls (failing calls of an update are in FlakyIssue.GithubIssue.UpdateIssue, and no run theorem covers them); creating an issue is one step. Bulk issues, several issues for a test (tools/flaky-test-reporter/github_issue.go:505-518 reuses the text of the first for the second) and the clean-up in `getFlakyIssues` are not modelled.
- FlakyIssue.HistoryIsComplete: needs records that are not remembered yet; without that, FlakyIssue.HistoryWithRepeats.
- FlakyMerge.BuildRecord: the results of the builds are given; `getResultSliceForTest`, `addSuiteToRepoData` and `filterOutParentTests` (tools/flaky-test-reporter/result.go:142-259) are not modelled.
- ReleaseBranches.UpdateConfigForJob: versions are unbounded integers once parsed, so the difference of two of them does not overflow; `SortVersions` inserts where `sort.Slice` may use any method.
- Location.ResolveExactIff: characters, not bytes; the same for the ASCII names in use.
- Reconcile.Convergence: the effect of a failed call shows at once; a creation that times out and completes later is not modelled, nor are add-ons, workload identity and the project name in a creation request.
- Reconcile.ProcessClusters: `DeleteClusters` is not modelled; it deletes without looking at configurations.
- SemVer.TolerantPrinted: `ParseTolerant` trims ASCII white space only.
- GitRef.BranchFoundIff: needs branches that start like release branches to be named like one; `release-1.2.0-rc` counts as line 1.2 in the source and in the model.
- Depaginate.Listing.Depaginate: the collection does not change while it is listed, and the server names the last page consistently; waiting for the rate limit to reset takes no time.
- Coverage.CovList: blocks are given; splitting a profile line (`toBlock`) and reading files are not modelled.
- Coverage.RatioStable: ratios are exact, not 32-bit floats; percentages and thresholds as text are not modelled.
- `ListClusters` of the pool (its column order disagrees with its scan), `ListRequests`, HTTP and JSON.
- Templates, YAML, flags, logging, Slack, Docker and the Prow and GCS clients: plumbing.
