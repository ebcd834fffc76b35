/**
 * `check_and_show`: probe the repositories, sort the outcomes, write one
 * record per repository and compute the exit status, in plain or in
 * Nagios mode.
 */
module Report {
  import opened Wrappers
  import opened Ordering
  import opened Sorting
  import opened Probing

  const EXIT_SUCCESS := 0
  const EXIT_FAILURE := 1
  /** Nagios' CRITICAL status. */
  const NAGIOS_CRITICAL := 2

  datatype Channel = Stdout | Stderr

  /** One write: the stream it goes to and the text written. */
  datatype Record = Record(channel: Channel, text: string)

  /** `fmt(status, id)`: `'{}: {}; '` in Nagios mode, `'{}: {}\n'` otherwise. */
  function Format(nagios: bool, status: string, id: RepoId): (text: string)
    ensures |text| == |status| + |id| + (if nagios then 4 else 3)
  {
    if nagios then status + ": " + id + "; " else status + ": " + id + "\n"
  }

  /**
   * The status and the id can be read back from a formatted text: it is the
   * status, a colon and a space, the id, then the mode's terminator.
   */
  lemma FormatParts(nagios: bool, status: string, id: RepoId)
    ensures var text, n := Format(nagios, status, id), |status| + 2 + |id|;
            text[..|status|] == status && text[|status|..|status| + 2] == ": " &&
            text[|status| + 2..n] == id &&
            text[n..] == if nagios then "; " else "\n"
  {
  }

  /**
   * The record written for one outcome: `out('OK', id)` or `err('FAIL', id)`.
   * Only a failure in plain mode goes to stderr.
   */
  function Line(o: Outcome, nagios: bool): (r: Record)
    ensures r.channel == Stderr <==> !nagios && !o.1
    ensures r.text == Format(nagios, if o.1 then "OK" else "FAIL", o.0)
  {
    if o.1 then Record(Stdout, Format(nagios, "OK", o.0))
    else Record(if nagios then Stdout else Stderr, Format(nagios, "FAIL", o.0))
  }

  /** The records for a sequence of outcomes, one each, in that order. */
  function Lines(data: seq<Outcome>, nagios: bool): (r: seq<Record>)
    ensures |r| == |data|
  {
    if data == [] then [] else Lines(data[..|data| - 1], nagios) + [Line(data[|data| - 1], nagios)]
  }

  predicate AllOk(data: seq<Outcome>)
  {
    forall k :: 0 <= k < |data| ==> data[k].1
  }

  /** The exit status `check_and_show` promises: 0 when all are OK, else 1 (plain) or 2 (Nagios). */
  function ExitStatus(data: seq<Outcome>, nagios: bool): int
  {
    if AllOk(data) then EXIT_SUCCESS else if nagios then NAGIOS_CRITICAL else EXIT_FAILURE
  }

  /** The newline that ends the Nagios line, written only when something failed. */
  function Trailer(data: seq<Outcome>, nagios: bool): seq<Record>
  {
    if nagios && !AllOk(data) then [Record(Stdout, "\n")] else []
  }

  /**
   * Everything `check_and_show` writes for the outcomes `data`, in order:
   * the line of each outcome in ascending order, then, in Nagios mode after
   * a failure, one newline.
   */
  function Show(data: seq<Outcome>, nagios: bool): (r: seq<Record>)
    ensures |r| == |data| + (if nagios && !AllOk(data) then 1 else 0)
    ensures forall k :: 0 <= k < |data| ==> r[k] == Line(SortOutcomes(data)[k], nagios)
    ensures nagios && !AllOk(data) ==> r[|data|] == Record(Stdout, "\n")
  {
    LinesAt(SortOutcomes(data), nagios);
    Lines(SortOutcomes(data), nagios) + Trailer(data, nagios)
  }

  /**
   * `check_and_show` with the writes of lines 235 and 237 done as the
   * surrounding code intends: `out(status, id)` and `err(status, id)`.
   */
  method CheckAndShow<M>(repos: map<RepoId, string>, fetch: RepoId -> Probe<M>, repositories: seq<Repo>, nagios: bool)
    returns (status: int, records: seq<Record>)
    ensures var data := CheckRepositories(repos, fetch, repositories);
            status == ExitStatus(data, nagios) && records == Show(data, nagios)
    ensures status == EXIT_SUCCESS <==>
            forall i :: 0 <= i < |repositories| ==> CheckRepository(repos, fetch, repositories[i].id)
    ensures status != EXIT_SUCCESS ==> status == if nagios then NAGIOS_CRITICAL else EXIT_FAILURE
  {
    status := EXIT_SUCCESS;
    var data := CheckRepositories(repos, fetch, repositories);
    ghost var unsorted := data;
    data := SortOutcomes(data);
    SortOutcomesCorrect(unsorted);

    var errChannel := if nagios then Stdout else Stderr;
    records := [];
    for i := 0 to |data|
      invariant status == if AllOk(data[..i]) then EXIT_SUCCESS else EXIT_FAILURE
      invariant records == Lines(data[..i], nagios)
    {
      var (id, isOk) := data[i];
      if isOk {
        records := records + [Record(Stdout, Format(nagios, "OK", id))];
      } else {
        records := records + [Record(errChannel, Format(nagios, "FAIL", id))];
        status := EXIT_FAILURE;
      }
      PrefixStep(data, i, nagios);
    }
    assert data[..|data|] == data;
    AllOkPermutation(unsorted, data);
    AllOkMeansChecked(repos, fetch, repositories);

    if status != EXIT_SUCCESS && nagios {
      records := records + [Record(Stdout, "\n")];
      status := NAGIOS_CRITICAL;
    }
  }

  /** What one more turn of the loop in `check_and_show` adds. */
  lemma PrefixStep(data: seq<Outcome>, i: nat, nagios: bool)
    requires i < |data|
    ensures Lines(data[..i + 1], nagios) == Lines(data[..i], nagios) + [Line(data[i], nagios)]
    ensures AllOk(data[..i + 1]) == (AllOk(data[..i]) && data[i].1)
  {
    assert data[..i + 1][..i] == data[..i];
  }

  lemma AllOkMeansChecked<M>(repos: map<RepoId, string>, fetch: RepoId -> Probe<M>, repositories: seq<Repo>)
    ensures AllOk(CheckRepositories(repos, fetch, repositories)) <==>
            forall i :: 0 <= i < |repositories| ==> CheckRepository(repos, fetch, repositories[i].id)
  {
  }

  /** Whether every outcome is OK does not depend on their order. */
  lemma AllOkPermutation(a: seq<Outcome>, b: seq<Outcome>)
    requires multiset(a) == multiset(b)
    ensures AllOk(a) == AllOk(b)
  {
    if !AllOk(a) {
      var k :| 0 <= k < |a| && !a[k].1;
      assert a[k] in multiset(b);
    }
    if !AllOk(b) {
      var k :| 0 <= k < |b| && !b[k].1;
      assert b[k] in multiset(a);
    }
  }

  lemma {:induction false} LinesAt(data: seq<Outcome>, nagios: bool)
    ensures |Lines(data, nagios)| == |data|
    ensures forall k :: 0 <= k < |data| ==> Lines(data, nagios)[k] == Line(data[k], nagios)
  {
    if data != [] {
      LinesAt(data[..|data| - 1], nagios);
    }
  }

  /**
   * The records and the exit status depend only on which outcomes there
   * are, never on the order the repositories were given or probed in.
   */
  lemma ShowOrderIndependent(a: seq<Outcome>, b: seq<Outcome>, nagios: bool)
    requires multiset(a) == multiset(b)
    ensures Show(a, nagios) == Show(b, nagios)
    ensures ExitStatus(a, nagios) == ExitStatus(b, nagios)
  {
    SortOutcomesOrderIndependent(a, b);
    AllOkPermutation(a, b);
  }

  /**
   * The first |data| records are the outcomes' lines in ascending id
   * order; each comes from one of the outcomes.
   */
  lemma ShowAscending(data: seq<Outcome>, nagios: bool, i: nat, j: nat)
    requires i < j < |data|
    ensures var s := SortOutcomes(data);
            |s| == |data| && |Show(data, nagios)| >= |data| &&
            Show(data, nagios)[i] == Line(s[i], nagios) && Show(data, nagios)[j] == Line(s[j], nagios) &&
            LessEq(s[i].0, s[j].0) && s[i] in multiset(data) && s[j] in multiset(data)
  {
    var s := SortOutcomes(data);
    SortOutcomesCorrect(data);
    LinesAt(s, nagios);
    assert s[i] in multiset(s) && s[j] in multiset(s);
  }

  /**
   * Plain mode: one record per repository and no trailer; OK records go
   * to stdout as `OK: <id>\n`, FAIL records to stderr as `FAIL: <id>\n`.
   */
  lemma ShowPlain(data: seq<Outcome>, i: nat)
    requires i < |data|
    ensures var s := SortOutcomes(data);
            var r := Show(data, false);
            |r| == |s| == |data| &&
            (s[i].1 ==> r[i] == Record(Stdout, "OK: " + s[i].0 + "\n")) &&
            (!s[i].1 ==> r[i] == Record(Stderr, "FAIL: " + s[i].0 + "\n"))
  {
    var s := SortOutcomes(data);
    LinesAt(s, false);
  }

  /**
   * Nagios mode: every record goes to stdout, each repository as
   * `OK: <id>; ` or `FAIL: <id>; `, and a single newline follows exactly
   * when some repository failed.
   */
  lemma ShowNagios(data: seq<Outcome>)
    ensures var s := SortOutcomes(data);
            var r := Show(data, true);
            |s| == |data| &&
            |r| == |data| + (if AllOk(data) then 0 else 1) &&
            (forall k :: 0 <= k < |r| ==> r[k].channel == Stdout) &&
            (forall k :: 0 <= k < |data| ==>
               r[k].text == (if s[k].1 then "OK: " else "FAIL: ") + s[k].0 + "; ") &&
            (!AllOk(data) ==> r[|data|] == Record(Stdout, "\n"))
  {
    var s := SortOutcomes(data);
    var r := Show(data, true);
    forall k | 0 <= k < |r| ensures r[k].channel == Stdout {
      if k < |data| {
        assert r[k] == Line(s[k], true);
      }
    }
    forall k | 0 <= k < |data| ensures r[k].text == (if s[k].1 then "OK: " else "FAIL: ") + s[k].0 + "; " {
      assert r[k] == Line(s[k], true);
    }
  }

  /** The sort of the example outcomes, one insertion at a time. */
  lemma SortThreeExample()
    ensures SortOutcomes([("C", true), ("B", false), ("A", true)]) == [("A", true), ("B", false), ("C", true)]
  {
    assert Less("A", "B") && Less("B", "C") && Less("A", "C");
    assert SortOutcomes([("A", true)]) == [("A", true)];
    assert Insert(("B", false), [("A", true)]) == [("A", true), ("B", false)];
    assert SortOutcomes([("B", false), ("A", true)]) == [("A", true), ("B", false)];
    assert Insert(("C", true), [("A", true), ("B", false)]) == [("A", true), ("B", false), ("C", true)];
  }

  /** Three repositories, B unreachable, in plain mode: OK lines on stdout, the FAIL line on stderr, exit 1. */
  lemma PlainScenario()
    ensures var data := [("C", true), ("B", false), ("A", true)];
            Show(data, false) == [Record(Stdout, "OK: A\n"), Record(Stderr, "FAIL: B\n"), Record(Stdout, "OK: C\n")] &&
            ExitStatus(data, false) == EXIT_FAILURE
  {
    var data := [("C", true), ("B", false), ("A", true)];
    assert !AllOk(data) by {
      assert !data[1].1;
    }
    SortThreeExample();
    var r := Show(data, false);
    assert Format(false, "OK", "A") == "OK: A\n";
    assert Format(false, "FAIL", "B") == "FAIL: B\n";
    assert Format(false, "OK", "C") == "OK: C\n";
    assert r == [Record(Stdout, "OK: A\n"), Record(Stderr, "FAIL: B\n"), Record(Stdout, "OK: C\n")];
  }

  /** The same repositories in Nagios mode: one line, in id order, closed by a newline, exit 2. */
  lemma NagiosScenario()
    ensures var data := [("C", true), ("B", false), ("A", true)];
            Show(data, true) == [Record(Stdout, "OK: A; "), Record(Stdout, "FAIL: B; "), Record(Stdout, "OK: C; "), Record(Stdout, "\n")] &&
            ExitStatus(data, true) == NAGIOS_CRITICAL
  {
    var data := [("C", true), ("B", false), ("A", true)];
    assert !AllOk(data) by {
      assert !data[1].1;
    }
    SortThreeExample();
    var r := Show(data, true);
    assert Format(true, "OK", "A") == "OK: A; ";
    assert Format(true, "FAIL", "B") == "FAIL: B; ";
    assert Format(true, "OK", "C") == "OK: C; ";
    assert r == [Record(Stdout, "OK: A; "), Record(Stdout, "FAIL: B; "), Record(Stdout, "OK: C; "), Record(Stdout, "\n")];
  }

  /**
   * `check_and_show` as written: lines 235 and 237 call `.write` on the
   * lambdas `out` and `err`, which have no such attribute, so the first
   * outcome of the loop raises `AttributeError`; only an empty list of
   * outcomes gets through.
   */
  function ShowAsWritten(data: seq<Outcome>, nagios: bool): (r: Result<(int, seq<Record>), PythonError>)
    ensures r.Success? <==> data == []
    ensures r.Success? ==> r.value == (ExitStatus(data, nagios), Show(data, nagios))
  {
    if data == [] then
      assert Show(data, nagios) == [];
      Success((EXIT_SUCCESS, []))
    else Failure(AttributeError)
  }
}
