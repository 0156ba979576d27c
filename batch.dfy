/**
 * validate_files: every input file is validated against the schema, and the
 * files that did not pass are returned in input order. Reading a file and
 * validating it is an oracle here: for each file it gives what
 * Schema.validate returns (True, False or None) or the exception it raises.
 */
module Batch {
  import opened Values

  /** What Schema.validate gives for one file. */
  type Outcome = Result<Option<bool>>

  /** `not passed`: False and None fail; an exception skips the file. */
  predicate Failed(outcome: Outcome) {
    outcome.Ok? && outcome.value != Some(true)
  }

  /** The failed files among `files`, in order. */
  function Failures(files: seq<string>, check: string -> Outcome): (r: seq<string>)
    ensures |r| <= |files|
    decreases |files|
  {
    if files == [] then []
    else
      var last := files[|files| - 1];
      Failures(files[..|files| - 1], check) + (if Failed(check(last)) then [last] else [])
  }

  /** A file is reported exactly when it is an input and it failed: a file
      that passed, or whose validation raised, is not reported. */
  lemma {:induction false} FailuresExact(files: seq<string>, check: string -> Outcome, f: string)
    ensures f in Failures(files, check) <==> f in files && Failed(check(f))
    decreases |files|
  {
    if files != [] {
      var init := files[..|files| - 1];
      FailuresExact(init, check, f);
      assert files == init + [files[|files| - 1]];
    }
  }

  /** Each file is judged on its own: the failures of two batches are the
      failures of each, one after the other. */
  lemma {:induction false} FailuresConcat(a: seq<string>, b: seq<string>, check: string -> Outcome)
    ensures Failures(a + b, check) == Failures(a, check) + Failures(b, check)
    decreases |b|
  {
    if b == [] {
      assert a + b == a;
    } else {
      var init := b[..|b| - 1];
      FailuresConcat(a, init, check);
      assert (a + b)[..|a + b| - 1] == a + init;
    }
  }

  /** validate_files(schema, input_files, ...), without the printing and
      without moving the failed files into output_dir. */
  method ValidateFiles(files: seq<string>, check: string -> Outcome) returns (failed: seq<string>)
    ensures failed == Failures(files, check)
  {
    failed := [];
    var j := 0;
    while j < |files|
      invariant 0 <= j <= |files|
      invariant failed == Failures(files[..j], check)
    {
      assert files[..j + 1][..j] == files[..j];
      var outcome := check(files[j]);
      if outcome.Ok? && outcome.value != Some(true) {
        failed := failed + [files[j]];
      }
      j := j + 1;
    }
    assert files[..j] == files;
  }
}
