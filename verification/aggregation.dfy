/** How `Downloader.download()` turns the reports of its tasks into one
    outcome: it waits until every task is done, collects the error strings in
    task-list order and, if there is any, joins them with "," into the message
    of the exception it throws. */
module Aggregation {
  import opened Results

  /** A task as the polling loop sees it: still running, or done with an
      optional error string (`null` in the source when the task succeeded). */
  datatype TaskState = Running | Done(error: Option<string>)

  /** What all reports taken together amount to. */
  datatype Verdict = AllSucceeded | Failed(message: string)

  /** One pass of the polling loop: go round again, or stop with a verdict. */
  datatype Decision = KeepWaiting | Decided(verdict: Verdict)

  /** The separator the message builder puts between two error strings. */
  const Separator: char := ','

  /** The error strings of the failed reports, in report order. */
  function Errors(reports: seq<Option<string>>): (errors: seq<string>)
    ensures |errors| <= |reports|
    ensures errors == [] <==> forall k :: 0 <= k < |reports| ==> reports[k].None?
  {
    if reports == [] then []
    else (if reports[0].Some? then [reports[0].value] else []) + Errors(reports[1..])
  }

  /** The errors are exactly the failed reports' strings: none is dropped and
      none is made up. */
  lemma {:induction false} ErrorsExactly(reports: seq<Option<string>>)
    ensures forall k :: 0 <= k < |reports| && reports[k].Some? ==> reports[k].value in Errors(reports)
    ensures forall e :: e in Errors(reports) ==> Some(e) in reports
    decreases |reports|
  {
    if reports != [] {
      ErrorsExactly(reports[1..]);
      assert forall k :: 1 <= k < |reports| ==> reports[k] == reports[1..][k - 1];
    }
  }

  /** Collecting errors commutes with concatenating report lists. */
  lemma {:induction false} ErrorsAppend(a: seq<Option<string>>, b: seq<Option<string>>)
    ensures Errors(a + b) == Errors(a) + Errors(b)
    decreases |a|
  {
    if a == [] {
      assert a + b == b;
    } else {
      var head := if a[0].Some? then [a[0].value] else [];
      assert (a + b)[0] == a[0];
      assert (a + b)[1..] == a[1..] + b;
      assert Errors(a + b) == head + Errors(a[1..] + b);
      ErrorsAppend(a[1..], b);
      assert Errors(a) == head + Errors(a[1..]);
    }
  }

  /** Sum of the lengths of a list of strings. */
  function TotalLength(xs: seq<string>): nat {
    if xs == [] then 0 else TotalLength(xs[..|xs| - 1]) + |xs[|xs| - 1]|
  }

  /** The message builder: start with the first error and append "," and the
      next error for each further one. The message begins with the first error,
      so no separator leads it, and it is exactly one separator per gap longer
      than the errors themselves. */
  function Join(xs: seq<string>): (s: string)
    requires |xs| >= 1
    ensures |s| == TotalLength(xs) + |xs| - 1
    ensures xs[0] <= s
    decreases |xs|
  {
    if |xs| == 1 then xs[0]
    else
      var front := xs[..|xs| - 1];
      var s := Join(front) + [Separator] + xs[|xs| - 1];
      assert front[0] == xs[0];
      assert Join(front) <= s;
      s
  }

  /** Joining also unfolds from the front: the first error, a separator, and
      the join of the rest. */
  lemma {:induction false} JoinCons(xs: seq<string>)
    requires |xs| >= 2
    ensures Join(xs) == xs[0] + [Separator] + Join(xs[1..])
    decreases |xs|
  {
    var m := |xs| - 1;
    if |xs| == 2 {
      assert xs[..m] == [xs[0]];
      assert xs[1..] == [xs[1]];
    } else {
      var front := xs[..m];
      var tail := xs[1..];
      JoinCons(front);
      assert front[1..] == tail[..m - 1];
      assert tail[m - 1] == xs[m];
      calc {
        Join(xs);
        Join(front) + [Separator] + xs[m];
        (xs[0] + [Separator] + Join(tail[..m - 1])) + [Separator] + xs[m];
        xs[0] + [Separator] + (Join(tail[..m - 1]) + [Separator] + tail[m - 1]);
        xs[0] + [Separator] + Join(tail);
      }
    }
  }

  /** Index of the first occurrence of `c` in `s`. */
  function FirstIndex(s: string, c: char): (i: nat)
    requires c in s
    ensures i < |s| && s[i] == c && c !in s[..i]
  {
    if s[0] == c then 0
    else
      var j := FirstIndex(s[1..], c);
      assert s[1..][..j] == s[1..j + 1];
      1 + j
  }

  /** Splitting a message at every separator: the inverse of `Join` for error
      strings that contain no separator themselves. */
  function Split(s: string): (parts: seq<string>)
    ensures |parts| >= 1
    decreases |s|
  {
    if Separator in s then
      var i := FirstIndex(s, Separator);
      [s[..i]] + Split(s[i + 1..])
    else [s]
  }

  /** Error strings free of separators can be read back from the message,
      each in its place. */
  lemma {:induction false} SplitJoin(xs: seq<string>)
    requires |xs| >= 1
    requires forall k :: 0 <= k < |xs| ==> Separator !in xs[k]
    ensures Split(Join(xs)) == xs
    decreases |xs|
  {
    if |xs| == 1 {
    } else {
      JoinCons(xs);
      var rest := Join(xs[1..]);
      var s := Join(xs);
      var x := xs[0];
      assert s[|x|] == Separator;
      assert s[..|x|] == x;
      var i := FirstIndex(s, Separator);
      assert i == |x|;
      assert s[..i] == x;
      assert s[i + 1..] == rest;
      SplitJoin(xs[1..]);
    }
  }

  /** `t` occurs in `s` at offset `i`. */
  predicate OccursAt(t: string, s: string, i: int) {
    0 <= i && i + |t| <= |s| && s[i..i + |t|] == t
  }

  /** Error `k` sits in the message right after the errors and separators
      before it. */
  lemma {:induction false} JoinPlacesEach(xs: seq<string>, k: int)
    requires 0 <= k < |xs|
    ensures OccursAt(xs[k], Join(xs), TotalLength(xs[..k]) + k)
    decreases |xs|
  {
    var m := |xs| - 1;
    if m == 0 {
      assert xs[..0] == [];
    } else {
      var front := xs[..m];
      var j := Join(front);
      assert Join(xs) == j + [Separator] + xs[m];
      if k == m {
        assert front == xs[..k];
      } else {
        JoinPlacesEach(front, k);
        assert front[..k] == xs[..k];
        var o := TotalLength(xs[..k]) + k;
        assert o + |xs[k]| <= |j|;
        assert Join(xs)[o..o + |xs[k]|] == j[o..o + |xs[k]|];
      }
    }
  }

  /** The outcome the reports amount to: success when no report carries an
      error, otherwise the errors in report order joined by ",". */
  function Aggregate(reports: seq<Option<string>>): (v: Verdict)
    ensures v.AllSucceeded? <==> forall k :: 0 <= k < |reports| ==> reports[k].None?
  {
    var errors := Errors(reports);
    if |errors| != 0 then Failed(Join(errors)) else AllSucceeded
  }

  /** The failure message loses no error: every failed report's error string
      occurs in it, and when no error string contains "," splitting the
      message gives back exactly the errors in report order. */
  lemma MessageListsEveryError(reports: seq<Option<string>>)
    ensures Aggregate(reports).Failed? ==>
      forall k :: 0 <= k < |reports| && reports[k].Some? ==>
        exists i :: OccursAt(reports[k].value, Aggregate(reports).message, i)
    ensures Aggregate(reports).Failed? && (forall e :: e in Errors(reports) ==> Separator !in e) ==>
      Split(Aggregate(reports).message) == Errors(reports)
  {
    var errors := Errors(reports);
    if Aggregate(reports).Failed? {
      ErrorsExactly(reports);
      forall k | 0 <= k < |reports| && reports[k].Some?
        ensures exists i :: OccursAt(reports[k].value, Aggregate(reports).message, i)
      {
        var j :| 0 <= j < |errors| && errors[j] == reports[k].value;
        JoinPlacesEach(errors, j);
      }
      if forall e :: e in errors ==> Separator !in e {
        SplitJoin(errors);
      }
    }
  }

  /** The reports of the tasks that are done, in task-list order. */
  function DoneReports(snapshot: seq<TaskState>): (reports: seq<Option<string>>)
    ensures |reports| <= |snapshot|
    ensures |reports| == |snapshot| <==> forall k :: 0 <= k < |snapshot| ==> snapshot[k].Done?
    ensures |reports| == |snapshot| ==> forall k :: 0 <= k < |snapshot| ==> reports[k] == snapshot[k].error
  {
    if snapshot == [] then []
    else (if snapshot[0].Done? then [snapshot[0].error] else []) + DoneReports(snapshot[1..])
  }

  /** One pass of the polling loop over a snapshot of the task list (which
      always holds one entry per thread): keep waiting while a task is still
      running; once all are done, decide on their reports in task-list order. */
  function Poll(snapshot: seq<TaskState>): (d: Decision)
    ensures d.KeepWaiting? <==> exists k :: 0 <= k < |snapshot| && snapshot[k].Running?
    ensures d.Decided? ==> d.verdict == Aggregate(seq(|snapshot|, k requires 0 <= k < |snapshot| => snapshot[k].error))
  {
    var done := DoneReports(snapshot);
    if |done| == |snapshot| then
      assert done == seq(|snapshot|, k requires 0 <= k < |snapshot| => snapshot[k].error);
      Decided(Aggregate(done))
    else KeepWaiting
  }
}
