/**
 * The selection block of `main`: which repositories to check, given the
 * positional arguments, or which `sysexits.h` code to exit with instead.
 */
module Selection {
  import opened Wrappers
  import opened Seqs
  import opened Ordering
  import opened Sorting
  import opened Probing

  /** BSD `sysexits.h` codes, as Python's `os.EX_*`. */
  const EX_USAGE := 64
  const EX_NOINPUT := 66
  const EX_CONFIG := 78

  /**
   * The loaded repositories (`yb.repos.repos`): a map from id to display
   * name, together with the order in which the dictionary yields them.
   */
  datatype Catalog = Catalog(names: map<RepoId, string>, order: seq<RepoId>) {
    /** `order` lists every configured id exactly once. */
    ghost predicate Valid()
    {
      NoDups(order) && Elems(order) == names.Keys
    }
  }

  /** Why `main` stops before probing anything. */
  datatype SelectError =
    | InvalidRepositories(invalid: seq<RepoId>)  // some argument names no repository
    | NoInput                                    // the arguments selected nothing
    | NoRepositories                             // there is nothing to check at all

  function ExitCode(e: SelectError): (code: int)
    ensures code in {EX_USAGE, EX_NOINPUT, EX_CONFIG}
    ensures code == EX_USAGE <==> e.InvalidRepositories?
    ensures code == EX_NOINPUT <==> e.NoInput?
    ensures code == EX_CONFIG <==> e.NoRepositories?
  {
    match e
    case InvalidRepositories(_) => EX_USAGE
    case NoInput => EX_NOINPUT
    case NoRepositories => EX_CONFIG
  }

  /** The three codes are pairwise distinct and none of them means success. */
  lemma ExitCodesDistinct()
    ensures EX_USAGE != EX_NOINPUT && EX_USAGE != EX_CONFIG && EX_NOINPUT != EX_CONFIG
    ensures EX_USAGE != 0 && EX_NOINPUT != 0 && EX_CONFIG != 0
  {
  }

  /** The ids of a list of repositories, in order. */
  function Ids(rs: seq<Repo>): (ids: seq<RepoId>)
    ensures |ids| == |rs|
    ensures forall i :: 0 <= i < |rs| ==> ids[i] == rs[i].id
  {
    seq(|rs|, i requires 0 <= i < |rs| => rs[i].id)
  }

  /** Each repository carries the display name the catalog gives its id. */
  ghost predicate FromCatalog(cat: Catalog, rs: seq<Repo>)
  {
    forall i :: 0 <= i < |rs| ==> rs[i].id in cat.names && rs[i].name == cat.names[rs[i].id]
  }

  /** The arguments that name no configured repository, in argument order. */
  function Missing(args: seq<RepoId>, names: map<RepoId, string>): (missing: seq<RepoId>)
    ensures Elems(missing) == Elems(args) - names.Keys
  {
    if args == [] then []
    else
      var rest := Missing(args[1..], names);
      assert args == [args[0]] + args[1..];
      ElemsCons(args[0], args[1..]);
      ElemsCons(args[0], rest);
      if args[0] in names then rest else [args[0]] + rest
  }

  /** The repositories of `order` whose id is in `wanted`, in catalog order. */
  function ReposIn(names: map<RepoId, string>, order: seq<RepoId>, wanted: set<RepoId>): (rs: seq<Repo>)
    requires Elems(order) <= names.Keys
    ensures forall i :: 0 <= i < |rs| ==> rs[i].id in names && rs[i].name == names[rs[i].id]
    ensures Elems(Ids(rs)) == Elems(order) * wanted
    ensures NoDups(order) ==> NoDups(Ids(rs))
  {
    if order == [] then []
    else
      var rest := ReposIn(names, order[1..], wanted);
      assert order == [order[0]] + order[1..];
      ElemsCons(order[0], order[1..]);
      NoDupsCons(order[0], order[1..]);
      if order[0] in wanted then
        var rs := [Repo(order[0], names[order[0]])] + rest;
        assert Ids(rs) == [order[0]] + Ids(rest);
        ElemsCons(order[0], Ids(rest));
        NoDupsCons(order[0], Ids(rest));
        assert order[0] in Ids(rest) ==> order[0] in Elems(order[1..]);
        rs
      else rest
  }

  /** `yb.repos.repos.values()`: every configured repository. */
  function AllRepos(cat: Catalog): (rs: seq<Repo>)
    requires cat.Valid()
    ensures FromCatalog(cat, rs)
    ensures Elems(Ids(rs)) == cat.names.Keys
    ensures NoDups(Ids(rs))
    ensures |rs| == |cat.names|
  {
    var rs := seq(|cat.order|, i requires 0 <= i < |cat.order| => Repo(cat.order[i], cat.names[cat.order[i]]));
    assert Ids(rs) == cat.order;
    NoDupsCard(cat.order);
    rs
  }

  /** `if not repositories: return os.EX_CONFIG`. */
  function NonEmpty(repositories: seq<Repo>): (r: Result<seq<Repo>, SelectError>)
    ensures r.Success? <==> repositories != []
    ensures r.Success? ==> r.value == repositories
    ensures r.Failure? ==> r.error == NoRepositories
  {
    if repositories == [] then Failure(NoRepositories) else Success(repositories)
  }

  /**
   * Lines 300-322 of `main`. With arguments, every argument must name a
   * configured repository (otherwise `EX_USAGE`, with the invalid ids
   * sorted) and the selection is the repositories whose id was given
   * (`EX_NOINPUT` if there are none). Without arguments, every repository
   * is selected. An empty selection is `EX_CONFIG`.
   */
  function Select(cat: Catalog, args: seq<RepoId>): (r: Result<seq<Repo>, SelectError>)
    requires cat.Valid()
    ensures r.Success? ==> r.value != [] && FromCatalog(cat, r.value) && NoDups(Ids(r.value))
    ensures r.Success? ==> Elems(Ids(r.value)) == if args == [] then cat.names.Keys else Elems(args)
    ensures r.Failure? && r.error.InvalidRepositories? ==> args != []
  {
    if args != [] then
      var wanted := Elems(args);
      var missing := Missing(args, cat.names);
      ElemsEmpty(missing);
      if missing != [] then Failure(InvalidRepositories(SortedDistinct(missing)))
      else
        assert wanted <= Elems(cat.order) by {
          forall x | x in wanted ensures x in cat.names.Keys {
            assert x !in Elems(missing);
          }
        }
        var repositories := ReposIn(cat.names, cat.order, wanted);
        assert Elems(Ids(repositories)) == wanted;
        if repositories == [] then Failure(NoInput)
        else NonEmpty(repositories)
    else NonEmpty(AllRepos(cat))
  }

  /** Without arguments every configured repository is selected; only an empty catalog is an error. */
  lemma SelectAll(cat: Catalog)
    requires cat.Valid()
    ensures cat.names != map[] ==>
              Select(cat, []).Success? &&
              var rs := Select(cat, []).value;
              FromCatalog(cat, rs) && Elems(Ids(rs)) == cat.names.Keys && |rs| == |cat.names|
    ensures cat.names == map[] ==> Select(cat, []) == Failure(NoRepositories)
  {
  }

  /**
   * `EX_USAGE` happens exactly when some argument names no repository, and
   * then it reports exactly those arguments, each once, in sorted order.
   */
  lemma SelectInvalid(cat: Catalog, args: seq<RepoId>)
    requires cat.Valid()
    ensures Select(cat, args).Failure? && Select(cat, args).error.InvalidRepositories? <==>
            !(Elems(args) <= cat.names.Keys)
    ensures Select(cat, args).Failure? && Select(cat, args).error.InvalidRepositories? ==>
            var invalid := Select(cat, args).error.invalid;
            StrictlySorted(invalid) && Elems(invalid) == Elems(args) - cat.names.Keys
  {
    var missing := Missing(args, cat.names);
    ElemsEmpty(missing);
    ElemsEmpty(args);
    assert missing != [] <==> Elems(args) - cat.names.Keys != {};
    if !(Elems(args) <= cat.names.Keys) {
      var y :| y in Elems(args) && y !in cat.names.Keys;
      assert y in Elems(args) - cat.names.Keys;
    }
  }

  /**
   * When every argument names a repository, the selection is exactly the
   * repositories whose id was given, it is not empty, and no error occurs.
   */
  lemma SelectRequested(cat: Catalog, args: seq<RepoId>)
    requires cat.Valid()
    requires args != [] && Elems(args) <= cat.names.Keys
    ensures Select(cat, args).Success?
    ensures var rs := Select(cat, args).value;
            rs != [] && FromCatalog(cat, rs) && Elems(Ids(rs)) == Elems(args) && NoDups(Ids(rs))
  {
    var missing := Missing(args, cat.names);
    ElemsEmpty(missing);
    var rs := ReposIn(cat.names, cat.order, Elems(args));
    assert Elems(Ids(rs)) == Elems(args);
    ElemsEmpty(args);
    ElemsEmpty(Ids(rs));
  }

  /** The `EX_NOINPUT` branch is unreachable. */
  lemma NoInputUnreachable(cat: Catalog, args: seq<RepoId>)
    requires cat.Valid()
    ensures Select(cat, args) != Failure(NoInput)
  {
  }

  /**
   * With nothing configured, no arguments is a configuration error and any
   * arguments are all invalid.
   */
  lemma SelectEmptyCatalog(cat: Catalog, args: seq<RepoId>)
    requires cat.Valid() && cat.names == map[]
    ensures args == [] ==> Select(cat, args) == Failure(NoRepositories)
    ensures args != [] ==> Select(cat, args).Failure? && Select(cat, args).error.InvalidRepositories? &&
                           Elems(Select(cat, args).error.invalid) == Elems(args)
  {
    SelectAll(cat);
    if args != [] {
      ElemsEmpty(args);
      SelectInvalid(cat, args);
    }
  }

  /** Repeating or reordering the arguments does not change the outcome. */
  lemma SelectDependsOnArgumentSet(cat: Catalog, args1: seq<RepoId>, args2: seq<RepoId>)
    requires cat.Valid()
    requires Elems(args1) == Elems(args2)
    ensures Select(cat, args1) == Select(cat, args2)
  {
    ElemsEmpty(args1);
    ElemsEmpty(args2);
    var m1, m2 := Missing(args1, cat.names), Missing(args2, cat.names);
    ElemsEmpty(m1);
    ElemsEmpty(m2);
    StrictlySortedUnique(SortedDistinct(m1), SortedDistinct(m2));
  }

  /** Repositories A, B and C, argument Z: `EX_USAGE`, naming Z, before anything is probed. */
  lemma UnknownIdScenario()
    ensures var cat := Catalog(map["A" := "a", "B" := "b", "C" := "c"], ["A", "B", "C"]);
            cat.Valid() && Select(cat, ["Z"]) == Failure(InvalidRepositories(["Z"])) &&
            ExitCode(Select(cat, ["Z"]).error) == EX_USAGE
  {
  }

  /** `', '.join(names)`. */
  function JoinComma(names: seq<string>): string
  {
    if names == [] then ""
    else if |names| == 1 then names[0]
    else names[0] + ", " + JoinComma(names[1..])
  }

  /** The message `main` logs before returning `EX_USAGE`. */
  function InvalidMessage(invalid: seq<RepoId>): (m: string)
    ensures |invalid| == 1 ==> m == "invalid repository: " + invalid[0]
    ensures |invalid| == 2 ==> m == "invalid repositories: " + invalid[0] + ", " + invalid[1]
  {
    assert |invalid| == 2 ==> JoinComma(invalid) == invalid[0] + ", " + JoinComma(invalid[1..]);
    "invalid repositor" + (if |invalid| == 1 then "y" else "ies") + ": " + JoinComma(invalid)
  }
}
