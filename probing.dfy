/**
 * `NotYumBase.check_repository` and `check_repositories`: one metadata
 * fetch per repository, every failure of the fetch turned into `False`.
 */
module Probing {
  import opened Wrappers
  import opened Ordering

  type RepoId = string

  /** A configured repository: its id and its display name. */
  datatype Repo = Repo(id: RepoId, name: string)

  /** The exception classes `check_repository` tells apart when a fetch raises. */
  datatype ProbeError = RepoError | Unhandled

  /**
   * What one `_getFileRepoXML` call did: returned a value (Python's
   * `None` is `Returned(None)`) or raised. The fetch itself, network and
   * cache included, is not part of this model: callers pass it in as a
   * function from repository id to `Probe`.
   */
  datatype Probe<M> = Returned(result: Option<M>) | Raised(error: ProbeError)

  /** The fetch for `id` produced metadata. */
  predicate Fetched<M>(fetch: RepoId -> Probe<M>, id: RepoId)
  {
    fetch(id).Returned? && fetch(id).result.Some?
  }

  /**
   * `check_repository(id)`: looks the id up in the loaded repositories
   * (a miss is the `KeyError` branch), fetches its metadata and reports
   * whether a non-`None` result came back. Every exception is caught, so
   * the answer is always a boolean.
   */
  function CheckRepository<M>(repos: map<RepoId, string>, fetch: RepoId -> Probe<M>, id: RepoId): (ok: bool)
    ensures ok <==> id in repos && Fetched(fetch, id)
  {
    if id !in repos then false
    else match fetch(id)
      case Raised(_) => false
      case Returned(result) => result != None
  }

  /** `check_repositories`: one `(id, is_ok)` pair per repository, in the order given. */
  function CheckRepositories<M>(repos: map<RepoId, string>, fetch: RepoId -> Probe<M>, repositories: seq<Repo>): (data: seq<Outcome>)
    ensures |data| == |repositories|
    ensures forall i :: 0 <= i < |data| ==> data[i].0 == repositories[i].id
    ensures forall i :: 0 <= i < |data| ==>
      (data[i].1 <==> repositories[i].id in repos && Fetched(fetch, repositories[i].id))
  {
    seq(|repositories|, i requires 0 <= i < |repositories| =>
      (repositories[i].id, CheckRepository(repos, fetch, repositories[i].id)))
  }

  /** An exception that escapes a call in the code as written. */
  datatype PythonError = AttributeError

  /**
   * `check_repository(id)` as written. For an id that is not loaded, the
   * `KeyError` is caught while `repository` is still the id string, so
   * the message at line 189 reads `.id` off a `str` and raises
   * `AttributeError`. Every loaded id gets the intended answer.
   */
  function CheckRepositoryAsWritten<M>(repos: map<RepoId, string>, fetch: RepoId -> Probe<M>, id: RepoId): (r: Result<bool, PythonError>)
    ensures r.Failure? <==> id !in repos
    ensures r.Success? ==> r.value == CheckRepository(repos, fetch, id)
  {
    if id !in repos then Failure(AttributeError)
    else match fetch(id)
      case Raised(_) => Success(false)
      case Returned(result) => Success(result != None)
  }

  /** The as-written `check_repository` on an id nobody configured. */
  lemma UnknownIdRaises()
    ensures CheckRepositoryAsWritten(map["base" := "Base"], (id: RepoId) => Returned(Some(0)), "nope") == Failure(AttributeError)
    ensures !CheckRepository(map["base" := "Base"], (id: RepoId) => Returned(Some(0)), "nope")
  {
  }

  /**
   * `check_repositories` over the as-written `check_repository`: the list
   * comprehension stops at the first repository whose id is not loaded;
   * when there is none, the outcomes are the intended ones.
   */
  function CheckRepositoriesAsWritten<M>(repos: map<RepoId, string>, fetch: RepoId -> Probe<M>, repositories: seq<Repo>): (r: Result<seq<Outcome>, PythonError>)
    ensures r.Failure? <==> exists i :: 0 <= i < |repositories| && repositories[i].id !in repos
    ensures r.Success? ==> r.value == CheckRepositories(repos, fetch, repositories)
  {
    if repositories == [] then Success([])
    else
      var first := repositories[0];
      match CheckRepositoryAsWritten(repos, fetch, first.id)
      case Failure(e) => Failure(e)
      case Success(ok) =>
        CheckRepositoriesCons(repos, fetch, repositories);
        SomeUnloadedCons(repos, repositories);
        match CheckRepositoriesAsWritten(repos, fetch, repositories[1..])
        case Failure(e) => Failure(e)
        case Success(data) => Success([(first.id, ok)] + data)
  }

  /** `check_repositories` on the first repository, then on the rest. */
  lemma CheckRepositoriesCons<M>(repos: map<RepoId, string>, fetch: RepoId -> Probe<M>, repositories: seq<Repo>)
    requires repositories != []
    ensures CheckRepositories(repos, fetch, repositories) ==
            [(repositories[0].id, CheckRepository(repos, fetch, repositories[0].id))] +
            CheckRepositories(repos, fetch, repositories[1..])
  {
    var whole := CheckRepositories(repos, fetch, repositories);
    var rest := CheckRepositories(repos, fetch, repositories[1..]);
    forall i | 1 <= i < |whole| ensures whole[i] == rest[i - 1] {
      assert repositories[1..][i - 1] == repositories[i];
    }
  }

  /** Some repository's id is not loaded exactly when the first one's is not or one of the rest's is not. */
  lemma SomeUnloadedCons(repos: map<RepoId, string>, repositories: seq<Repo>)
    requires repositories != []
    ensures (exists i :: 0 <= i < |repositories| && repositories[i].id !in repos) <==>
            repositories[0].id !in repos ||
            exists i :: 0 <= i < |repositories[1..]| && repositories[1..][i].id !in repos
  {
    var rest := repositories[1..];
    if exists i :: 0 <= i < |repositories| && repositories[i].id !in repos {
      var i :| 0 <= i < |repositories| && repositories[i].id !in repos;
      if i > 0 {
        assert rest[i - 1].id !in repos;
      }
    }
    if exists i :: 0 <= i < |rest| && rest[i].id !in repos {
      var i :| 0 <= i < |rest| && rest[i].id !in repos;
      assert repositories[i + 1].id !in repos;
    }
  }

  /** `fetch` with the answer for `bad` replaced by `p`. */
  function Misbehave<M>(fetch: RepoId -> Probe<M>, bad: RepoId, p: Probe<M>): RepoId -> Probe<M>
  {
    id => if id == bad then p else fetch(id)
  }

  /**
   * Isolation: whatever the fetch of one repository does (raise, return
   * `None`), the outcome of every other repository is the one its own
   * fetch produces.
   */
  lemma ProbeIsolation<M>(repos: map<RepoId, string>, fetch: RepoId -> Probe<M>, repositories: seq<Repo>, bad: RepoId, p: Probe<M>)
    ensures var before := CheckRepositories(repos, fetch, repositories);
            var after := CheckRepositories(repos, Misbehave(fetch, bad, p), repositories);
            forall i :: 0 <= i < |repositories| && repositories[i].id != bad ==> after[i] == before[i]
  {
  }
}
