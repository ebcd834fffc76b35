/**
 * The end of `main`: select the repositories, then check and show them,
 * or stop with the selection's exit code before probing anything.
 */
module Cli {
  import opened Wrappers
  import opened Probing
  import opened Report
  import opened Selection

  /**
   * Lines 300-325 of `main`: a selection error becomes its exit code with
   * nothing written; otherwise the result is that of `check_and_show` on
   * the selection, which is 0 exactly when every selected repository's
   * metadata could be fetched.
   */
  method CheckSelected<M>(cat: Catalog, args: seq<RepoId>, fetch: RepoId -> Probe<M>, nagios: bool)
    returns (code: int, records: seq<Record>)
    requires cat.Valid()
    ensures Select(cat, args).Failure? ==>
            code == ExitCode(Select(cat, args).error) && records == []
    ensures Select(cat, args).Success? ==>
            var data := CheckRepositories(cat.names, fetch, Select(cat, args).value);
            code == ExitStatus(data, nagios) && records == Show(data, nagios)
    ensures Select(cat, args).Success? ==>
            (code == EXIT_SUCCESS <==> forall r :: r in Select(cat, args).value ==> Fetched(fetch, r.id))
  {
    var selection := Select(cat, args);
    if selection.Failure? {
      code, records := ExitCode(selection.error), [];
      return;
    }
    var repositories := selection.value;
    code, records := CheckAndShow(cat.names, fetch, repositories, nagios);
  }

  /**
   * The defect at line 189 is out of `main`'s reach: every repository the
   * selection hands to `check_repositories` is loaded, so the as-written
   * `check_repository` never raises there and gives the intended outcomes.
   */
  lemma SelectionAvoidsUnknownIds<M>(cat: Catalog, args: seq<RepoId>, fetch: RepoId -> Probe<M>)
    requires cat.Valid()
    requires Select(cat, args).Success?
    ensures var rs := Select(cat, args).value;
            CheckRepositoriesAsWritten(cat.names, fetch, rs) == Success(CheckRepositories(cat.names, fetch, rs))
  {
  }

  /**
   * The defect at lines 235 and 237, as written: whenever `main` gets as
   * far as `check_and_show`, the selection is non-empty and the first
   * `.write` on a lambda raises `AttributeError`.
   */
  lemma AsWrittenAlwaysRaises<M>(cat: Catalog, args: seq<RepoId>, fetch: RepoId -> Probe<M>, nagios: bool)
    requires cat.Valid()
    requires Select(cat, args).Success?
    ensures ShowAsWritten(CheckRepositories(cat.names, fetch, Select(cat, args).value), nagios) == Failure(AttributeError)
  {
  }
}
