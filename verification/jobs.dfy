/** Job-application records and the two list updates the pages make on the
    in-memory collection: replace-by-id after an edit and remove-by-id after
    a delete. */
module Jobs {
  import opened Wrappers
  import Seqs

  /** A record identifier. Records created locally carry the numeric
      `Date.now()` value, records from the store carry the string id it
      assigned; `===` never equates a number with a string. */
  datatype Id = Num(n: int) | Key(s: string)

  /** A job application. `notes` is `None` when the stored record has no
      (or a null) notes property. */
  datatype Job = Job(
    id: Id,
    company: string,
    position: string,
    status: string,
    notes: Option<string>,
    appliedDate: string)

  /** A request sent to the remote job collection. */
  datatype StoreCall =
    | CreateCall(record: Job)
    | UpdateCall(id: Id, record: Job)
    | DeleteCall(id: Id)

  /** The argument of a `confirm({ title, message, type })` call. */
  datatype Ask = Ask(title: string, message: string, kind: string)

  /** `jobs.map(job => job.id === id ? rec : job)`. */
  function ReplaceById(jobs: seq<Job>, id: Id, rec: Job): (r: seq<Job>)
    ensures |r| == |jobs|
    ensures forall k :: 0 <= k < |jobs| && jobs[k].id == id ==> r[k] == rec
    ensures forall k :: 0 <= k < |jobs| && jobs[k].id != id ==> r[k] == jobs[k]
  {
    if jobs == [] then []
    else [if jobs[0].id == id then rec else jobs[0]] + ReplaceById(jobs[1..], id, rec)
  }

  function HasId(id: Id): Job -> bool {
    (j: Job) => j.id == id
  }

  function LacksId(id: Id): Job -> bool {
    (j: Job) => j.id != id
  }

  /** `jobs.filter(job => job.id !== id)`. */
  function RemoveById(jobs: seq<Job>, id: Id): (r: seq<Job>)
    ensures forall j :: j in r <==> j in jobs && j.id != id
    ensures |r| + Seqs.Count(jobs, HasId(id)) == |jobs|
  {
    CountSplits(jobs, id);
    Seqs.Filter(jobs, LacksId(id))
  }

  /** Every job either has the id or lacks it. */
  lemma {:induction false} CountSplits(jobs: seq<Job>, id: Id)
    ensures Seqs.Count(jobs, LacksId(id)) + Seqs.Count(jobs, HasId(id)) == |jobs|
  {
    if jobs != [] {
      CountSplits(jobs[1..], id);
    }
  }

  /** Removing by id keeps the remaining jobs in their original order. */
  lemma RemoveByIdKeepsOrder(jobs: seq<Job>, id: Id)
    ensures Seqs.SubsequenceOf(RemoveById(jobs, id), jobs)
  {
    Seqs.FilterIsSubsequence(jobs, LacksId(id));
  }

  /** Deleting a job after it was edited in place removes the same jobs as
      deleting it directly: the edit neither adds nor hides a record. */
  lemma {:induction false} RemoveAfterReplace(jobs: seq<Job>, id: Id, rec: Job)
    requires rec.id == id
    ensures RemoveById(ReplaceById(jobs, id, rec), id) == RemoveById(jobs, id)
  {
    if jobs != [] {
      RemoveAfterReplace(jobs[1..], id, rec);
      assert ReplaceById(jobs, id, rec)[1..] == ReplaceById(jobs[1..], id, rec);
    }
  }
}
