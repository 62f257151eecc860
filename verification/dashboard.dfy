/** The job list page (`Dashboard.jsx`): the search/status filter and the
    confirm-gated delete. The confirmation answer and the outcome of the
    awaited store request are inputs. */
module Dashboard {
  import opened Wrappers
  import opened Text
  import Seqs
  import opened Jobs

  const DeleteAsk: Ask := Ask(
    "Delete Job", "Are you sure you want to delete this job? This action cannot be undone.", "danger")

  /** Case-insensitive text match on position or company. */
  predicate MatchesSearch(j: Job, term: string) {
    Contains(Lower(j.position), Lower(term)) || Contains(Lower(j.company), Lower(term))
  }

  /** An empty status filter admits all; otherwise statuses must agree
      ignoring case. */
  predicate MatchesStatus(j: Job, status: string) {
    status == "" || Lower(j.status) == Lower(status)
  }

  function Keep(term: string, status: string): Job -> bool {
    (j: Job) => MatchesSearch(j, term) && MatchesStatus(j, status)
  }

  /** `filteredJobs`. */
  function FilteredJobs(jobs: seq<Job>, term: string, status: string): (r: seq<Job>)
    ensures forall j :: j in r <==> j in jobs && MatchesSearch(j, term) && MatchesStatus(j, status)
    ensures |r| == Seqs.Count(jobs, Keep(term, status))
  {
    Seqs.Filter(jobs, Keep(term, status))
  }

  /** The filtered list keeps the jobs in their original order. */
  lemma FilteredKeepsOrder(jobs: seq<Job>, term: string, status: string)
    ensures Seqs.SubsequenceOf(FilteredJobs(jobs, term, status), jobs)
  {
    Seqs.FilterIsSubsequence(jobs, Keep(term, status));
  }

  /** With no search term and no status filter every job is shown. */
  lemma NoFilterShowsAll(jobs: seq<Job>)
    ensures FilteredJobs(jobs, "", "") == jobs
  {
    forall j | j in jobs ensures Keep("", "")(j) {
      ContainsEmpty(Lower(j.position));
    }
    Seqs.FilterKeepsAll(jobs, Keep("", ""));
  }

  /** The filter does not see the case of the search term or status. */
  lemma FilterIgnoresCase(jobs: seq<Job>, term: string, status: string)
    ensures FilteredJobs(jobs, Lower(term), Lower(status)) == FilteredJobs(jobs, term, status)
  {
    LowerIdempotent(term);
    LowerIdempotent(status);
    forall j | j in jobs ensures Keep(Lower(term), Lower(status))(j) == Keep(term, status)(j) {
      assert status == "" <==> Lower(status) == "";
    }
    Seqs.FilterCongruent(jobs, Keep(Lower(term), Lower(status)), Keep(term, status));
  }

  /** The result of `handleDelete`: the new list, the confirmation asked and
      the store request issued. */
  datatype DeleteStep = DeleteStep(jobs: seq<Job>, asked: Ask, call: Option<StoreCall>)

  /** `handleDelete`. `answer` is what the confirmation resolves to and
      `deleted` whether the awaited store request succeeded. */
  function Delete(jobs: seq<Job>, id: Id, answer: bool, deleted: bool): (s: DeleteStep)
    ensures s.asked == DeleteAsk
    ensures s.call.Some? <==> answer
    ensures answer ==> s.call == Some(DeleteCall(id))
    ensures !(answer && deleted) ==> s.jobs == jobs
    ensures answer && deleted ==>
      && (forall j :: j in s.jobs <==> j in jobs && j.id != id)
      && Seqs.SubsequenceOf(s.jobs, jobs)
      && |s.jobs| + Seqs.Count(jobs, HasId(id)) == |jobs|
  {
    if !answer then DeleteStep(jobs, DeleteAsk, None)
    else if !deleted then DeleteStep(jobs, DeleteAsk, Some(DeleteCall(id)))
    else
      RemoveByIdKeepsOrder(jobs, id);
      DeleteStep(RemoveById(jobs, id), DeleteAsk, Some(DeleteCall(id)))
  }
}
