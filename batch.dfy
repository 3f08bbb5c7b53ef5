/**
 * The tally of `process_images`: every file is handed to a worker, and the completions are
 * consumed in whatever order the workers finish, each adding one to the success counter or
 * one entry to the failure list. The order is a parameter, any permutation of the files.
 */
module Batch {
  import opened Wrappers
  import opened Text
  import opened Inference
  import opened Writers
  import opened Processor

  /** One submitted file: what its future yields and `os.path.relpath` of its path. */
  datatype Job = Job(completion: Completion, rel: string)

  /** An entry of `failed_images`: the relative path and the reason. */
  datatype Failure = Failure(rel: string, reason: string)

  const UnexpectedPrefix: string := "\U{274C} Unexpected error: "

  /** What consuming one completion adds: `None` for a success, else the failure entry. */
  function Entry(job: Job): (r: Option<Failure>)
    ensures job.completion.Completed? ==>
      (r.None? <==> IsSuccessStatus(job.completion.status))
      && (r.Some? ==> r.value == Failure(job.completion.rel, job.completion.status))
    ensures job.completion.Crashed? ==>
      r == Some(Failure(job.rel, UnexpectedPrefix + job.completion.message))
  {
    match job.completion
    case Completed(rel, status) => if IsSuccessStatus(status) then None else Some(Failure(rel, status))
    case Crashed(message) => Some(Failure(job.rel, UnexpectedPrefix + message))
  }

  predicate InRange(order: seq<nat>, n: nat) {
    forall k :: 0 <= k < |order| ==> order[k] < n
  }

  /** The submission order `0, 1, ..., n - 1`. */
  function Indices(n: nat): (r: seq<nat>)
    ensures |r| == n && forall k :: 0 <= k < n ==> r[k] == k
  {
    if n == 0 then [] else Indices(n - 1) + [n - 1]
  }

  /** `order` yields every one of the `n` futures exactly once, as `as_completed` does. */
  predicate IsPermutation(order: seq<nat>, n: nat) {
    multiset(order) == multiset(Indices(n))
  }

  /** What each file's completion adds, in submission order. */
  function Entries(jobs: seq<Job>): (es: seq<Option<Failure>>)
    ensures |es| == |jobs| && forall i :: 0 <= i < |jobs| ==> es[i] == Entry(jobs[i])
  {
    seq(|jobs|, i requires 0 <= i < |jobs| => Entry(jobs[i]))
  }

  /** The success counter after consuming, in the order `order`, completions adding `es`. */
  function Successes(es: seq<Option<Failure>>, order: seq<nat>): nat
    requires InRange(order, |es|)
  {
    if order == [] then 0
    else Successes(es, order[..|order| - 1]) + (if es[order[|order| - 1]].None? then 1 else 0)
  }

  /** The failure list after consuming, in the order `order`, completions adding `es`. */
  function Failures(es: seq<Option<Failure>>, order: seq<nat>): seq<Failure>
    requires InRange(order, |es|)
  {
    if order == [] then []
    else
      var e := es[order[|order| - 1]];
      Failures(es, order[..|order| - 1]) + (if e.Some? then [e.value] else [])
  }

  /** The completion loop of `process_images` over completions in the order `order`. */
  method Tally(jobs: seq<Job>, order: seq<nat>) returns (successful: nat, failed: seq<Failure>)
    requires IsPermutation(order, |jobs|)
    ensures InRange(order, |jobs|)
    ensures successful == Successes(Entries(jobs), order)
    ensures failed == Failures(Entries(jobs), order)
    ensures successful + |failed| == |jobs|
  {
    PermutationBounds(order, |jobs|);
    ghost var es := Entries(jobs);
    successful := 0;
    failed := [];
    var index := 0;
    while index < |order|
      invariant 0 <= index <= |order|
      invariant successful == Successes(es, order[..index])
      invariant failed == Failures(es, order[..index])
    {
      assert order[..index + 1][..index] == order[..index];
      var job := jobs[order[index]];
      match job.completion {
        case Completed(rel, status) =>
          if Contains(status, "\U{2705}") || Contains(status, "\U{1F6E0}\U{FE0F}") {
            successful := successful + 1;
          } else {
            failed := failed + [Failure(rel, status)];
          }
        case Crashed(message) =>
          failed := failed + [Failure(job.rel, UnexpectedPrefix + message)];
      }
      index := index + 1;
    }
    assert order[..index] == order;
    TallyTotal(es, order);
  }

  /** `process_images` from the file list on: submit `process_file` for each, then tally. */
  method ProcessImages(paths: seq<string>, rels: seq<string>, images: seq<Image>, order: seq<nat>)
    returns (successful: nat, failed: seq<Failure>)
    requires |rels| == |paths| && |images| == |paths|
    requires IsPermutation(order, |paths|)
    ensures var jobs := Jobs(paths, rels, images);
      InRange(order, |jobs|) && successful == Successes(Entries(jobs), order)
      && failed == Failures(Entries(jobs), order)
    ensures successful + |failed| == |paths|
  {
    successful, failed := Tally(Jobs(paths, rels, images), order);
  }

  /** The futures: file `i` runs `process_file` on its own path and contents. */
  function Jobs(paths: seq<string>, rels: seq<string>, images: seq<Image>): (jobs: seq<Job>)
    requires |rels| == |paths| && |images| == |paths|
    ensures |jobs| == |paths|
    ensures forall i :: 0 <= i < |paths| ==>
      jobs[i] == Job(ProcessFile(paths[i], rels[i], images[i]).completion, rels[i])
  {
    seq(|paths|, i requires 0 <= i < |paths| => Job(ProcessFile(paths[i], rels[i], images[i]).completion, rels[i]))
  }

  // ---------------------------------------------------------------------------------
  // Properties of the tally
  // ---------------------------------------------------------------------------------

  lemma PermutationBounds(order: seq<nat>, n: nat)
    requires IsPermutation(order, n)
    ensures |order| == n && InRange(order, n)
  {
    assert |multiset(order)| == |multiset(Indices(n))|;
    forall k | 0 <= k < |order|
      ensures order[k] < n
    {
      assert order[k] in multiset(order);
      assert order[k] in multiset(Indices(n));
      var j :| 0 <= j < n && Indices(n)[j] == order[k];
    }
  }

  /** Each completion adds exactly one success or exactly one failure. */
  lemma {:induction false} TallyTotal(es: seq<Option<Failure>>, order: seq<nat>)
    requires InRange(order, |es|)
    ensures Successes(es, order) + |Failures(es, order)| == |order|
  {
    if order != [] {
      TallyTotal(es, order[..|order| - 1]);
    }
  }

  lemma {:induction false} TallyAppend(es: seq<Option<Failure>>, a: seq<nat>, b: seq<nat>)
    requires InRange(a, |es|) && InRange(b, |es|)
    ensures InRange(a + b, |es|)
    ensures Successes(es, a + b) == Successes(es, a) + Successes(es, b)
    ensures Failures(es, a + b) == Failures(es, a) + Failures(es, b)
    decreases |b|
  {
    if b != [] {
      var b' := b[..|b| - 1];
      assert (a + b)[..|a + b| - 1] == a + b';
      TallyAppend(es, a, b');
    } else {
      assert a + b == a;
    }
  }

  /**
   * The order the workers finish in changes neither the success count nor which failures
   * are listed: two orders that yield the same files give the same count and the same
   * failure entries, up to order.
   */
  lemma {:induction false} OrderIrrelevant(es: seq<Option<Failure>>, o1: seq<nat>, o2: seq<nat>)
    requires InRange(o1, |es|) && InRange(o2, |es|)
    requires multiset(o1) == multiset(o2)
    ensures Successes(es, o1) == Successes(es, o2)
    ensures multiset(Failures(es, o1)) == multiset(Failures(es, o2))
    decreases |o1|
  {
    if o1 == [] {
      assert |multiset(o2)| == 0;
    } else {
      var x := o1[|o1| - 1];
      var rest1 := o1[..|o1| - 1];
      assert o1 == rest1 + [x];
      assert x in o2 by {
        assert x in multiset(o1);
      }
      var k :| 0 <= k < |o2| && o2[k] == x;
      var rest2 := o2[..k] + o2[k + 1..];
      RemoveOne(o1, o2, k);
      TallyWithout(es, o2, k);
      OrderIrrelevant(es, rest1, rest2);
      TallyAppend(es, rest1, [x]);
      var f1, f2, fx := Failures(es, rest1), Failures(es, rest2), Failures(es, [x]);
      assert Failures(es, o1) == f1 + fx;
      assert multiset(f1 + fx) == multiset(f1) + multiset(fx);
    }
  }

  /** Taking the last element off one order and its occurrence off the other keeps them equal as multisets. */
  lemma RemoveOne(o1: seq<nat>, o2: seq<nat>, k: nat)
    requires multiset(o1) == multiset(o2) && o1 != [] && k < |o2| && o2[k] == o1[|o1| - 1]
    ensures multiset(o1[..|o1| - 1]) == multiset(o2[..k] + o2[k + 1..])
  {
    var x, rest1, rest2 := o1[|o1| - 1], o1[..|o1| - 1], o2[..k] + o2[k + 1..];
    assert o1 == rest1 + [x];
    assert o2 == o2[..k] + [x] + o2[k + 1..];
    assert multiset(rest1) + multiset{x} == multiset(rest2) + multiset{x};
    forall y
      ensures multiset(rest1)[y] == multiset(rest2)[y]
    {
      assert (multiset(rest1) + multiset{x})[y] == (multiset(rest2) + multiset{x})[y];
    }
  }

  /** The tally of an order is the tally without its `k`-th completion plus that completion's share. */
  lemma TallyWithout(es: seq<Option<Failure>>, o: seq<nat>, k: nat)
    requires InRange(o, |es|) && k < |o|
    ensures InRange(o[..k] + o[k + 1..], |es|)
    ensures Successes(es, o) == Successes(es, o[..k] + o[k + 1..]) + Successes(es, [o[k]])
    ensures multiset(Failures(es, o))
      == multiset(Failures(es, o[..k] + o[k + 1..])) + multiset(Failures(es, [o[k]]))
  {
    var a, m, b := o[..k], [o[k]], o[k + 1..];
    assert o == a + m + b;
    TallyAppend(es, a, m);
    TallyAppend(es, a + m, b);
    TallyAppend(es, a, b);
    var fa, fm, fb := Failures(es, a), Failures(es, m), Failures(es, b);
    assert multiset(fa + fm + fb) == multiset(fa) + multiset(fm) + multiset(fb);
    assert multiset(fa + fb) == multiset(fa) + multiset(fb);
  }

  /** Any completion order gives the tally of the submission order. */
  lemma AnyOrderAsSubmitted(es: seq<Option<Failure>>, order: seq<nat>)
    requires IsPermutation(order, |es|)
    ensures InRange(order, |es|) && InRange(Indices(|es|), |es|)
    ensures Successes(es, order) == Successes(es, Indices(|es|))
    ensures multiset(Failures(es, order)) == multiset(Failures(es, Indices(|es|)))
  {
    PermutationBounds(order, |es|);
    OrderIrrelevant(es, order, Indices(|es|));
  }

  /** A file whose completion is a failure has its entry in the failure list. */
  lemma {:induction false} FailureListed(es: seq<Option<Failure>>, order: seq<nat>, k: nat)
    requires InRange(order, |es|)
    requires k < |order| && es[order[k]].Some?
    ensures es[order[k]].value in Failures(es, order)
  {
    if k < |order| - 1 {
      FailureListed(es, order[..|order| - 1], k);
    }
  }

  /** Every file of a permutation whose completion is a failure is listed. */
  lemma ListedInAnyOrder(es: seq<Option<Failure>>, order: seq<nat>, i: nat)
    requires IsPermutation(order, |es|) && i < |es| && es[i].Some?
    ensures InRange(order, |es|)
    ensures es[i].value in Failures(es, order)
  {
    PermutationBounds(order, |es|);
    assert Indices(|es|)[i] == i;
    assert i in multiset(Indices(|es|));
    assert i in multiset(order);
    var k :| 0 <= k < |order| && order[k] == i;
    FailureListed(es, order, k);
  }

  /**
   * A file whose name holds an impossible date is listed as an unexpected error, with the
   * constructor's message, whatever the completion order.
   */
  lemma ImpossibleDateListed(paths: seq<string>, rels: seq<string>, images: seq<Image>, order: seq<nat>, i: nat)
    requires |rels| == |paths| && |images| == |paths|
    requires IsPermutation(order, |paths|) && i < |paths|
    requires ExtractDateFromTitle(Basename(paths[i])).Raised?
    ensures InRange(order, |paths|)
    ensures Failure(rels[i], UnexpectedPrefix + ExtractDateFromTitle(Basename(paths[i])).e.Message())
      in Failures(Entries(Jobs(paths, rels, images)), order)
  {
    var jobs := Jobs(paths, rels, images);
    assert jobs[i].completion == Crashed(ExtractDateFromTitle(Basename(paths[i])).e.Message());
    ListedInAnyOrder(Entries(jobs), order, i);
  }
}
