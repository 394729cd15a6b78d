# A verified model of InfraBox's workflow compiler, scheduler and controller

InfraBox runs CI builds. A build starts from an `infrabox.json` file that may include further files;
a runner compiles the tree of files into one flat list of jobs, the job API inserts the list into the
`job` table, a scheduler moves the rows from state to state, and a Kubernetes controller creates and
deletes the cluster objects behind each running job. This project models these four parts in Dafny
and proves what they promise, separately and together.

## Reading guide

* `Base`, `Names`, `Infrabox`: shared types, qualified names, the validator and what an accepted file
  guarantees.
* `Workflow`, `WorkflowShape`, `Compiler`: the compiler. `Compiler.GetJobList` follows the code, bottom
  up and in place; `Workflow.FlatFile` describes the same list top down, and every theorem about the
  list is proved on that description.
* `WorkflowOrder`, `WorkflowPaths`, `WorkflowBrackets`, `WorkflowMeaning`, `WorkflowFaithful`,
  `WorkflowHarmless`: properties of the flat list. `NestFile` evaluates the tree of files directly, `Eval` runs down the
  flat list. For one assignment of job results the two agree if and only if `Faithful` holds; they agree
  for all results that runners can report if and only if `Harmless` holds, a condition on the files
  alone that one walk over the tree decides (`Requirements` is the algebra it computes with).
* `JobTable`, `Descent`, `Lifecycle`, `Outcomes`: the rows, the transition system of a whole
  installation with any number of builds, and properties of all its runs.
* `Scheduler`, `Restart`, `CreateJobs`: the imperative handlers, each proved to compute a function of
  the old database, and theorems about those functions. `PassIsRun`, `AbortsAreRun`, `TimeoutsAreRun`
  and `ReportsAreRun` show that the handlers take only steps of the transition system.
* `EndToEnd`, `Completion`: file tree, compiler, insertion and scheduler in one statement. A terminal
  job of an undisturbed build has the state that walking the tree of files gives it, and every build can
  run on undisturbed until it is complete.
* `Review`, `Builds`: the Gerrit vote and build numbering.
* `Controller`, `ControllerFence`, `ControllerResults`, `ControllerSync`: the IBJob controller as a
  machine whose steps are single API calls, safety of all its behaviours, what one sync achieves, and
  the reconcile methods themselves, which take only steps of that machine.

Automatic induction is switched off for every lemma: each induction is the one its body writes out.

## What is assumed

* Each handler, and each per-job decision of `schedule()`, is one atomic step.
* A runner acts only while the IBJob of its job exists and the job is active, and it reports only
  finished, failure or error (src/job/job.py:1223-1236). When a job is restarted, the old IBJobs of the
  restarted jobs are gone.
* Controller: the copy of an IBJob a sync starts from is any version ever stored under the name;
  between two API calls anything may happen to the cluster and the controller may crash; a call may fail
  with or without having taken effect; an update succeeds only from the stored version; pod lists are
  current, an accepted delete is effective, and one key is never processed by two workers at once.
* A submission that the cluster refuses has no effect. A POST that took effect although its answer was
  lost (src/scheduler/kubernetes/scheduler.py:69-77) would leave a queued job with an IBJob; the
  invariant `LiveLeftQueue` excludes that. The deletion requests that the abort, timeout and orphan
  handlers send do not end an IBJob at once: it goes away later, by a step of the environment.
* Results of SQL queries are taken as listed, in any order. The answers of Kubernetes, the order after
  the sort by duration, the clusters assigned and the jobs that exceeded their timeout are parameters.
  Job ids are distinct.

## Findings

* An include of an *empty* file that has `depends_on` loses it: no entry job inherits it, and the wait
  job gets an empty list (src/job/job.py:1165-1201). `GatedEmptyIncludeRunsAnyway` is a concrete build
  in which such an include finishes although the job it should wait for failed. `FlatIsBracketed` says
  for every include that its wait job comes after the include's dependencies if and only if its file is
  not empty. `PreservedExactlyIfHarmless` says for which trees outcomes are preserved nevertheless: each
  include of an empty file must be gated like its enclosing file, and an include's leaves must demand
  whatever its sinks demand. Both are compared as conditions on what single jobs report, so a tree can
  be checked before it is built.
* The documentation lists `failed`, `finished` and `error` for `*` (docs/doc.md:414) and says that such a
  job runs independent of the parent state (docs/doc.md:416). The code adds `skipped`
  (src/job/job.py:1067-1071), which agrees with the second sentence and not with the list. The model
  follows the code.

* An error in the sync that sets the finalizer is not recorded: that update makes the lister's copy, from
  which the error status is written, out of date (src/controller/controller.go:232-236). The mark is
  accepted if and only if the stored object is still the one the sync began with (`FailureIsReported`).

## Model

| member | source | states |
|---|---|---|
| Infrabox.CheckName | src/pyinfrabox/infrabox/__init__.py:7-13 | a name is accepted iff it is non-empty and all its characters are lower-case letters, digits, `_` or `-`, listed one by one |
| Infrabox.ParseDependsOnCondition | src/pyinfrabox/infrabox/__init__.py:29-50 | a condition is accepted iff its job name is valid and `on` is a non-empty list of distinct values among finished, error, failure and `*` |
| Infrabox.ParseDependsOn | src/pyinfrabox/infrabox/__init__.py:53-68 | a `depends_on` list is accepted iff it is non-empty and each entry is valid |
| Infrabox.ParseJobs | src/pyinfrabox/infrabox/__init__.py:443-469 | the checks on names and dependencies of single jobs pass iff every job has a valid name and a valid `depends_on` |
| Infrabox.CheckDependencies | src/pyinfrabox/infrabox/__init__.py:501-522 | accepted iff the dependencies are distinct and each names an earlier job of the file |
| Infrabox.ValidateJson | src/pyinfrabox/infrabox/__init__.py:480-524 | the loop over the dictionaries accepts exactly the files whose jobs are valid, distinctly named and depend on distinct earlier jobs only |
| Infrabox.AcceptedMeans | src/pyinfrabox/infrabox/__init__.py:480-524 | acceptance said word by word: valid distinct names, and non-empty lists of distinct earlier jobs, each with distinct values among the four |
| Infrabox.NamesDistinct | src/pyinfrabox/infrabox/__init__.py:493-499 | two different jobs of an accepted file have different names |
| Names.BlocksDisjoint | src/job/job.py:1092-1093 | joining segments with `/` is unambiguous: one qualified name cannot lie in the blocks of two jobs of one file |
| Compiler.RewriteDependsOn | src/job/job.py:1058-1071 | in place, a bare name gets `[finished]`, a list with `*` becomes finished, error, failure and skipped, and nothing else changes |
| Compiler.Qualify | src/job/job.py:1092-1097 | in place, one job's name and the names it depends on are prefixed, order and conditions kept, other jobs untouched |
| Compiler.AdoptJobs | src/job/job.py:1165-1184 | entry jobs adopt the include's dependencies, all jobs its environment, and the names somebody waited for before are collected |
| Compiler.CloseInclude | src/job/job.py:1165-1201 | entry jobs adopt the include's dependencies, all jobs its environment, and the last job waits for exactly the jobs nobody waits for |
| Compiler.GetJobList | src/job/job.py:1073-1203 | for every tree of accepted files, compiling bottom up with later patching gives the list that passing the inheritance down gives |
| Compiler.IncludeClosed | src/job/job.py:1165-1201 | patching the compiled file of an include yields the block the top-down description gives it |
| Workflow.AdoptPushesDown | src/job/job.py:1165-1184 | handing dependencies and environment to a compiled file equals passing them down while compiling, at any depth |
| Workflow.LastIsSink | src/job/job.py:1196-1199 | the last job of a non-empty accepted file is a sink, so the wait job of such an include waits for something |
| WorkflowShape.NamesInBlock | src/job/job.py:1092-1093 | every job inside an include is named strictly below the include |
| WorkflowShape.FinalDepsAreSinks | src/job/job.py:1167-1199 | the jobs of a compiled file that nobody waits for are exactly the jobs of that file itself that no sibling keeps waiting for, in file order |
| WorkflowOrder.FlatFileOrdered | src/job/job.py:1086-1203 | every dependency in a compiled file is inherited or names a job strictly earlier in the list |
| WorkflowOrder.FlatIsTopological | src/job/job.py:1086-1203 | in the flat list of a build every dependency names a job strictly earlier in the list |
| WorkflowOrder.FlatFileUnique | src/job/job.py:1092-1194 | no two jobs of the flat list share a name, wait jobs included, at any depth |
| WorkflowOrder.FlatFileExplicit | src/job/job.py:1058-1071 | every dependency that is not inherited carries a non-empty list of states without wildcard |
| WorkflowPaths.NodesAreJobs | src/job/job.py:1086-1203 | for each node of the tree the flat list has exactly one job, named after the path to the node, of the node's kind or a wait job for an include; each variable has the value of the outermost include on the path that sets it, or else the node's own |
| WorkflowPaths.JobsAreNodes | src/job/job.py:1086-1203 | every job of the flat list is there for such a node |
| WorkflowBrackets.InsideComesAfter | src/job/job.py:1165-1199 | every job inside an include reaches every dependency of the include, and its wait job reaches every job inside |
| WorkflowBrackets.LeavesThroughDeps | src/job/job.py:1165-1201 | a dependency that leaves the block of an include is one of the include's own, or one it inherits if it has none; the wait job of an empty file has the enclosing file's |
| WorkflowBrackets.BlockEntry | src/job/job.py:1189-1201 | no job outside the block of an include waits for a job strictly inside it |
| WorkflowBrackets.EmptyIncludeUngated | src/job/job.py:1189-1199 | the wait job of an include of an empty file reaches no dependency of the include |
| WorkflowBrackets.FlatIsBracketed | src/job/job.py:1165-1201 | every include at any depth is a bracket of the flat list: entered through its wait job only, left through its dependencies only, and its wait job reaches its own dependencies iff its file is not empty |
| WorkflowMeaning.FileMeaning | src/job/job.py:1073-1203 | running down a compiled file after any earlier results adds exactly the results of walking the tree, if the tree is faithful under these results |
| WorkflowMeaning.FlatteningPreservesOutcomes | src/job/job.py:1073-1203 | whatever each job reports, the flat list gives every job and every include the state the tree gives it, unless an include of an empty file has dependencies |
| WorkflowMeaning.NoGatedEmptyIsFaithful | src/job/job.py:1189-1199 | a tree in which no include of an empty file has dependencies is faithful under all results |
| WorkflowMeaning.UngatedAccepted | src/pyinfrabox/infrabox/__init__.py:480-524 | the counterexample is a tree of accepted files |
| WorkflowMeaning.GatedEmptyIncludeRunsAnyway | src/job/job.py:1189-1199 | in the counterexample the include finishes although the job it depends on failed |
| WorkflowFaithful.PreservedExactlyIfFaithful | src/job/job.py:1073-1203 | for every accepted tree and all results: outcomes are preserved iff each include of an empty file is gated like its enclosing file and no include hangs on an unfinished job that only such includes wait for |
| WorkflowFaithful.AgreementNeedsFaithful | src/job/job.py:1165-1201 | if list and tree agree on a file after any earlier results, every include in it is faithful |
| Requirements.NotImplied | src/job/job.py:1073-1203 | if one conjunction of conditions on reports does not imply another by the comparison of allowed results, some outcomes meet the first and not the second |
| WorkflowHarmless.FileDescribed | src/job/job.py:1073-1203 | for all outcomes, the walk that collects conditions describes the state of every job of the tree |
| WorkflowHarmless.PreservedExactlyIfHarmless | src/job/job.py:1073-1203 | for every accepted tree: outcomes are preserved under all results that runners can report iff the tree is harmless, a condition without results |
| WorkflowHarmless.FaithfulExactlyIfHarmlessBuild | src/job/job.py:1165-1201 | the same for a tree gated by the creating job, whether that job finishes or not |
| WorkflowHarmless.NoGatedEmptyIsHarmless | src/job/job.py:1189-1199 | a tree in which no include of an empty file has dependencies is harmless |
| WorkflowHarmless.AnywayIsHarmless | src/job/job.py:1189-1199 | the converse fails: an include of an empty file that is to run in any case does no harm |
| WorkflowHarmless.UngatedIsHarmful | src/job/job.py:1189-1199 | the counterexample is harmful |
| JobTable.MeaningUnique | src/scheduler/kubernetes/scheduler.py:314-366 | the conditions and reports of an acyclic build determine the final state of every job |
| JobTable.MeaningExists | src/scheduler/kubernetes/scheduler.py:314-366 | such final states exist for every acyclic build and all reports |
| Lifecycle.EmptyGood | src/scheduler/kubernetes/scheduler.py:272-366 | the global invariant holds of the empty table |
| Lifecycle.StepGood | src/scheduler/kubernetes/scheduler.py:315-366 | every step, whoever takes it, keeps the invariant: ids resolved within the build, no cycles, a job that is neither queued nor killed has terminal parents only, and a job has an IBJob only after it left the queue and always while it is scheduled or running |
| Lifecycle.AllowedMeansIdle | src/api/handlers/projects/jobs.py:197-239 | a restart is allowed iff the job runs something and was not skipped, and neither it nor any descendant is queued, scheduled or running |
| Lifecycle.RestartQueues | src/api/handlers/projects/jobs.py:241-247 | the restart step puts the job and all its descendants into the queue and changes no other row |
| Lifecycle.RestartGood | src/api/handlers/projects/jobs.py:212-247 | restart keeps it because the re-queued set is closed under children |
| Lifecycle.CreateAcyclic | src/api/handlers/job_api.py:798-811 | inserting linked rows keeps the table acyclic |
| Lifecycle.ReachableGood | src/scheduler/kubernetes/scheduler.py:315-366 | the invariant holds after every run, restarts included |
| Outcomes.RunOnTrack | src/scheduler/kubernetes/scheduler.py:288-366 | in every run that leaves a build undisturbed, whatever happens to other builds, its terminal jobs have the states its meaning prescribes |
| Outcomes.CompleteRunsAgree | src/scheduler/kubernetes/scheduler.py:288-366 | two complete undisturbed runs with the same reports end in the same states, whatever the interleaving |
| Outcomes.ForwardLowersOne | src/scheduler/kubernetes/scheduler.py:347-435 | a step other than restart and insertion changes at most one job and never raises its rank |
| Outcomes.BoundedWork | src/scheduler/kubernetes/scheduler.py:347-435 | n jobs allow at most 3n state-changing steps between restarts and insertions |
| Outcomes.TerminalStays | src/scheduler/kubernetes/scheduler.py:368-406 | no step but a restart changes a job in a terminal state, skipped included |
| Outcomes.QuiescentBuildStays | src/pyinfraboxutils/ibflask.py:187-190 | once all jobs of a build are terminal, no run without restart changes one or adds one |
| Scheduler.Scheduler.ParentRows | src/scheduler/kubernetes/scheduler.py:300-311 | the query lists exactly the existing parents with their states |
| Scheduler.Scheduler.FindCondition | src/scheduler/kubernetes/scheduler.py:331-336 | the loop ends with the condition of the last entry for the parent, or with none if there is no entry |
| Scheduler.ConditionGiven | src/scheduler/kubernetes/scheduler.py:334-338 | the assertion on the condition cannot fail for a parent whose entries all have conditions |
| Scheduler.Scheduler.AnyActive | src/scheduler/kubernetes/scheduler.py:315-323 | true iff a listed parent is active |
| Scheduler.Scheduler.ScheduleJob | src/scheduler/kubernetes/scheduler.py:227-270 | a submission taken makes the job scheduled and gives it an IBJob; a refused one changes nothing; without a namespace the job ends in error |
| Scheduler.Scheduler.Visit | src/scheduler/kubernetes/scheduler.py:289-366 | one iteration computes the decision of the transition system: nothing while a parent is active, skipped if a condition fails, finished for a wait job, else a submission |
| Scheduler.Scheduler.Schedule | src/scheduler/kubernetes/scheduler.py:272-366 | a pass folds that decision over the queued jobs of the cluster in the order listed |
| Scheduler.PassIsRun | src/scheduler/kubernetes/scheduler.py:272-366 | a pass is a run of the transition system consisting of decisions |
| Scheduler.RefusedStaysQueued | src/scheduler/kubernetes/scheduler.py:262-263 | a job whose submission is refused is after the pass still queued, and has no IBJob it did not have before |
| Scheduler.OnlySubmissionStarts | src/scheduler/kubernetes/scheduler.py:262-267 | only a submission that is taken makes a job scheduled or gives it an IBJob |
| Scheduler.PassMakesProgress | src/scheduler/kubernetes/scheduler.py:272-366 | no deadlock: without cycles, if jobs are queued, all of one cluster, and none is scheduled or running, a pass changes a state or a submission was refused |
| Scheduler.OnePassSuffices | src/scheduler/kubernetes/scheduler.py:289-366 | if parents are visited first, a job still queued after one pass has an active parent or was refused |
| Scheduler.Scheduler.TakeAborts | src/scheduler/kubernetes/scheduler.py:368-388 | the query empties the abort table, kills listed queued jobs and returns exactly the listed jobs that were active |
| Scheduler.Scheduler.HandleAborts | src/scheduler/kubernetes/scheduler.py:368-406 | exactly the queued, scheduled and running jobs of the abort table end killed |
| Scheduler.AbortsAreRun | src/scheduler/kubernetes/scheduler.py:368-406 | which is a run of abort steps |
| Scheduler.Scheduler.HandleTimeouts | src/scheduler/kubernetes/scheduler.py:408-437 | exactly the running jobs that exceeded their timeout end in error |
| Scheduler.TimeoutsAreRun | src/scheduler/kubernetes/scheduler.py:408-437 | which is a run of timeout steps |
| Scheduler.Scheduler.HandleOrphanedJobs | src/scheduler/kubernetes/scheduler.py:479-535 | exactly the active jobs with a listed IBJob in error, not being deleted, end in error; deleted are exactly those IBJobs and the listed ones of jobs that are unknown or no longer active |
| Scheduler.ReportsAreRun | src/scheduler/kubernetes/scheduler.py:479-535 | which is a run of controller-error steps |
| Scheduler.JobApi.JobTokenRequired | src/pyinfraboxutils/ibflask.py:168-201 | the token of a job is accepted iff the job exists and is active |
| Scheduler.JobApi.SetRunning | src/api/handlers/job_api.py:599-612 | an active job becomes running, otherwise nothing changes |
| Scheduler.JobApi.SetFinished | src/api/handlers/job_api.py:1229-1260 | an active job takes the reported state, otherwise nothing changes |
| Restart.JobRestart.DependsOnRestarted | src/api/handlers/projects/jobs.py:223-229 | true iff a dependency names a collected job |
| Restart.JobRestart.Sweep | src/api/handlers/projects/jobs.py:215-232 | one sweep adds descendants only, each once, and adds nothing only if no row depends on a collected job |
| Restart.JobRestart.CollectDescendants | src/api/handlers/projects/jobs.py:212-232 | the loop ends with exactly the reflexive-transitive descendants, each once, whatever the order of the rows |
| Restart.JobRestart.SomeBlocked | src/api/handlers/projects/jobs.py:234-239 | true iff a listed job to be restarted is in a state that forbids it |
| Restart.JobRestart.Get | src/api/handlers/projects/jobs.py:180-249 | if the restart is allowed, each descendant's row is queued and every other row is as before; otherwise nothing changes |
| Restart.Ancestors | src/api/handlers/job_api.py:187-201 | the recursive query yields the least set of ancestors, without the job itself |
| Restart.StrictAncestorsLeast | src/api/handlers/job_api.py:187-201 | the jobs a job descends from in at least one step are the least set closed under parents |
| Restart.AncestorsAndDescendants | src/api/handlers/job_api.py:187-201 | a job is re-queued by the restart of j iff it is j or j is one of its ancestors |
| Descent.DescendantsLeast | src/api/handlers/projects/jobs.py:212-232 | every set that holds a job and is closed under children holds all its descendants |
| Descent.DescendantsWithinBuild | src/api/handlers/projects/jobs.py:205-210 | descendants lie in the build of the job, so listing the build is enough |
| CreateJobs.CreateJobs.CollectIds | src/api/handlers/job_api.py:715-720 | the dictionary maps each name to the id of the last job of that name |
| CreateJobs.CreateJobs.LinkJob | src/api/handlers/job_api.py:804-811 | names become ids, a root gets the creating job, and an unknown name fails |
| CreateJobs.CreateJobs.Post | src/api/handlers/job_api.py:679-894 | all rows are inserted or none, each with the name, build, cluster and type submitted and in state queued; they do not depend on the order after the sort |
| CreateJobs.InsertedCanBeRestarted | src/api/handlers/job_api.py:813-827 | an inserted job that has ended can be restarted iff it is no wait job |
| CreateJobs.NewRowsPermuted | src/api/handlers/job_api.py:767 | any permutation of the jobs yields the same rows |
| CreateJobs.SameGraph | src/api/handlers/job_api.py:798-811 | one row depends on another iff the one job depends on the other by name, entry by entry under the same condition; exactly the roots depend on the creating job, and wait for it to finish |
| CreateJobs.RowsAreLinked | src/api/handlers/job_api.py:798-811 | for a well-formed list every name is known and the rows are linked among themselves or to the creating job |
| CreateJobs.RowsAcyclic | src/api/handlers/job_api.py:798-811 | the inserted rows have no cycle |
| CreateJobs.NewJobsDescend | src/api/handlers/job_api.py:804-811 | every inserted job descends from the creating job |
| EndToEnd.FlatFileDistinct | src/job/job.py:1165-1199 | no job of a compiled file waits for the same job twice, so each parent has one condition |
| EndToEnd.InsertionIsStep | src/api/handlers/job_api.py:679-894 | inserting a compiled build is a step of the transition system |
| EndToEnd.BuildEndsAsWritten | src/scheduler/kubernetes/scheduler.py:288-366 | after compiling and inserting a tree, in every undisturbed run each terminal job has the state that walking the tree gives it, gated by the creating job |
| Completion.BuildCompletes | src/scheduler/kubernetes/scheduler.py:272-366 | from every good state and for all reports, a build can run on undisturbed until all its jobs are terminal |
| Completion.HarmlessBuildEndsAsWritten | src/scheduler/kubernetes/scheduler.py:288-366 | a harmless tree is built as written: every undisturbed run that completes the build ends with the states of the tree, and there is such a run |
| EndToEnd.EveryTreeCanBeBuilt | src/api/handlers/job_api.py:679-894 | the hypotheses on the state of the previous rows can be met for every tree of accepted files, after a run from the empty table |
| Review.ComputeVote | src/gerrit/review/review.py:147-167 | the vote is 0 iff a job is queued, scheduled or running, +1 iff all are finished, and -1 iff none is active and some is not finished, whatever the order of the groups |
| Review.HandleJobUpdate | src/gerrit/review/review.py:123-176 | -1 or +1 is sent iff the reporting job is terminal and the build complete, 0 only for `Create Jobs` |
| Review.FinalVoteStays | src/gerrit/review/review.py:147-167 | a verdict of -1 or +1 stays right in every run without restart |
| Builds.Project.MaxNumber | src/api/handlers/trigger.py:257-265 | the greatest build number in use, or 0 |
| Builds.Project.MaxCounter | src/api/handlers/projects/build.py:27-34 | the greatest restart counter of a build number, or 0 |
| Builds.Project.Trigger | src/api/handlers/trigger.py:257-265 | max plus one continues the numbers 1..n, and pairs stay unique |
| Builds.Project.Upload | src/api/handlers/project.py:352-365 | count of distinct numbers plus one continues the numbers 1..n, and pairs stay unique |
| Builds.Project.RestartBuild | src/api/handlers/projects/build.py:27-44 | the numbers stay, the new pair is unique, and the counters of each number stay without a gap |
| Builds.MaxIsCount | src/api/handlers/project.py:352-356 | on numbers 1..n the maximum is the count of distinct numbers |
| Controller.StepKeeps | src/controller/controller.go:215-247 | every API call, failure, crash, stale read and step of the environment keeps the invariant of finalizer and cluster objects |
| Controller.NothingLeaks | src/controller/controller.go:537-583 | in every reachable state, an existing batch job, pod or service belongs to a stored IBJob that carries the finalizer and lists the service |
| Controller.FinalizerLeavesLast | src/controller/controller.go:215-247 | only the last update of deleteJob takes the finalizer away, when nothing exists any more; the error status written from the lister's copy never does |
| ControllerFence.ServicesAreFenced | src/controller/controller.go:899-920 | a service appears only after, in the same sync, the finalizer update succeeded from an object that was stored, not deleting and not in error, and lists the service |
| ControllerFence.BatchJobIsFenced | src/controller/controller.go:899-930 | a batch job appears only behind the same fence and after each listed service was found ready in that sync |
| ControllerResults.DeletingSyncCleansUp | src/controller/controller.go:537-583 | a sync of the stored, deleting object with good answers only leaves no batch job, pod or service, and the object is gone if there were no pods |
| ControllerResults.DeletingSyncExists | src/controller/controller.go:537-583 | such a sync exists in every state |
| ControllerResults.CreatingSyncBuildsUp | src/controller/controller.go:899-930 | a sync of the stored object, neither deleting nor in error, with good answers only: without a faulty service all listed services exist, the finalizer is set, and the batch job exists iff all services were ready; with a faulty one the object is in error and there is no batch job |
| ControllerResults.CreatingSyncExists | src/controller/controller.go:899-930 | such a sync exists, unless a service is faulty in the sync that sets the finalizer |
| ControllerResults.NothingToDo | src/controller/controller.go:941-965 | a sync of an object in error, or whose batch job is found, makes no call and changes nothing |
| ControllerResults.FailureIsReported | src/controller/controller.go:228-244 | after the first error of a sync, deletions of services excepted, the update that marks the object comes next; it succeeds iff the stored object is still the one the sync began with, and changes nothing else |
| ControllerSync.Worker.Update | src/controller/controller.go:899-907 | an update of the IBJob is a step of the machine; on success the sync holds the stored object |
| ControllerSync.Worker.CreateService | src/controller/controller.go:681-784 | ready only if the service was got and is ready; a missing one is posted; a faulty one is an error |
| ControllerSync.Worker.CreateServices | src/controller/controller.go:812-837 | takes only steps of the machine and goes on to the batch job iff every service was ready |
| ControllerSync.Worker.CreateBatchJob | src/controller/controller.go:839-897 | takes only steps of the machine; an existing batch job is left alone |
| ControllerSync.Worker.CreateJob | src/controller/controller.go:899-930 | takes only steps of the machine, starting with the finalizer update |
| ControllerSync.Worker.DeleteServices | src/controller/controller.go:786-810 | takes only steps of the machine; a failed delete counts as not deleted, without an error |
| ControllerSync.Worker.DeleteBatchJob | src/controller/controller.go:483-505 | takes only steps of the machine; a lookup that finds nothing is an error |
| ControllerSync.Worker.DeletePods | src/controller/controller.go:507-535 | takes only steps of the machine; reports success only if no pod was listed |
| ControllerSync.Worker.DeleteJob | src/controller/controller.go:537-583 | takes only steps of the machine, the finalizer going only if services, batch job and pods are gone |
| ControllerSync.Worker.SyncHandlerImpl | src/controller/controller.go:932-966 | takes only steps of the machine, in each of its branches |
| ControllerSync.Worker.SyncHandler | src/controller/controller.go:215-247 | a sync from any version of the object begins with that version, takes only steps of the machine and ends idle; without an object it does nothing |

## Left out

- Infrabox.ParseJobs: the checks on names and dependencies only; the checks on other fields are settled by one branch each.
- WorkflowMeaning.FlatteningPreservesOutcomes: its simple condition on empty includes is sufficient; the exact one is `Harmless`, in PreservedExactlyIfHarmless.
- WorkflowFaithful.PreservedExactlyIfFaithful: exact for one assignment of results, which its condition therefore mentions; PreservedExactlyIfHarmless is the statement about the files alone.
- Scheduler.Scheduler.ScheduleJob: does not model a submission that took effect although its answer was lost.
- Scheduler.Scheduler.HandleAborts: the deletion request for the IBJob has no effect within the step; the IBJob goes away by a step of the environment.
- CreateJobs.CreateJobs.Post: models the path taken for the job `Create Jobs`; for other creators the code also prefixes names and splices the new leaf jobs into existing rows (src/api/handlers/job_api.py:769-794), with an id left over from an earlier loop.
- Scheduler.Scheduler.HandleTimeouts: the handler as one step, without the deletion of the IBJob; the update without a guard on the state could overwrite a result reported between its query and its update.
- Scheduler.PassMakesProgress: all queued jobs belong to the cluster of the pass; with jobs queued for several clusters, a pass sees only its own, and a parent may be queued for another one.
- Detection of recursive includes and termination on arbitrary maps of files: the input is a finite tree of included files.
- Git clones, contexts and repository fields of jobs (src/job/job.py:1086-1090, src/job/job.py:1104-1140), and sharing of one dependency list between several sub-jobs, which nothing mutates afterwards.
- Fields of job files other than name, dependencies, environment and kind.
- Cluster assignment (src/api/handlers/job_api.py:643-674): a parameter.
- find_leaf_jobs: used by the splice only.
- Interleavings inside one handler, and the consoles, messages, durations and dates of jobs.
- Orphaned namespaces and the state of clusters (src/scheduler/kubernetes/scheduler.py:439-477).
- Leader election: all replicas present the same key.
- The services controllers, in particular the one for GCP. The delete request of a service names the resource kind and not the service (src/controller/controller.go:601); the model takes it as deleting the listed service, and the services of other jobs are not part of it.
- Discovery, JSON and label errors on the way to a service call: they count as the failure of that call.
- Races of two workers on one key, and stale pod lists.
- Liveness of the controller: how often a sync is retried is up to the work queue.
- Storage, accounts, secrets, web front end and installer.
