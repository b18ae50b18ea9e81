// The decisions a version control handler makes for a checkout: which
// branch to follow, where `sync` goes, whether a repository may be pulled
// from or pushed to, the registry of VCS handlers, and the declaration of a
// checkout from a repository.

module VersionControl {
  import opened Wrappers
  import opened Labels
  import opened LabelMatching
  import opened Repositories
  import opened Utils
  import opened Db
  import Rules
  import Packages
  import Vocabulary

  /** What the handler knows of its VCS: names, whether it has lightweight
      branches, whether a pull must come before a commit, and the checkout
      options it accepts. */
  datatype Vcs = Vcs(shortName: string, longName: string, branching: bool,
                     mustPullBeforeCommit: bool, allowedOptions: set<string>)

  /** What the builder says about following: the build description's
      checkout label (None while unstamping), whether checkouts follow its
      branch, and the branch that checkout is currently on. */
  datatype Following = Following(buildDesc: Option<Label>, follow: bool, descBranch: Option<string>)

  const NoFollow := "no_follow"
  const ShallowCheckout := "shallow_checkout"
  const Master := "master"

  /** The checkout is the build description itself. */
  predicate IsBuildDesc(f: Following, co: Label) {
    f.buildDesc.Some? && MatchWithoutTag(f.buildDesc.value, co)
  }

  /** branch_to_follow: the branch a checkout must be put on because the
      build description says to follow its own branch, or None when the
      checkout's own description stands. Revision and branch are taken as
      truth values, so an empty one counts as unset. */
  function BranchToFollow(f: Following, co: Label, repo: Repository, options: map<string, Value>, vcs: Vcs)
    : (r: Result<Option<string>>)
    ensures r.Err? ==> r.error.GiveUp?
    ensures r.Err? <==> f.buildDesc.Some? && !IsBuildDesc(f, co) && !Given(repo.revision) && !Given(repo.branch)
                        && f.follow && NoFollow !in options && (ShallowCheckout in options || !vcs.branching)
    ensures r.Ok? && r.value.Some? ==> f.follow && r.value == f.descBranch
    ensures f.buildDesc.None? || !f.follow ==> r == Ok(None)
    ensures !IsBuildDesc(f, co) && (Given(repo.revision) || Given(repo.branch)) ==> r == Ok(None)
  {
    if f.buildDesc.None? then Ok(None)
    else if MatchWithoutTag(f.buildDesc.value, co) then
      if f.follow then Ok(f.descBranch) else Ok(None)
    else if Given(repo.revision) || Given(repo.branch) then Ok(None)
    else if f.follow then
      if NoFollow in options then Ok(None)
      else if ShallowCheckout in options then Err(GiveUp("checkout is shallow, so it cannot follow the build description's branch"))
      else if vcs.branching then Ok(f.descBranch)
      else Err(GiveUp("the checkout's VCS does not support branching"))
    else Ok(None)
  }

  /** When following is on and nothing else decides, the checkout follows
      the build description's branch. */
  lemma FollowsBuildDescBranch(f: Following, co: Label, repo: Repository, options: map<string, Value>, vcs: Vcs)
    requires f.buildDesc.Some? && f.follow && !Given(repo.revision) && !Given(repo.branch)
    requires NoFollow !in options && ShallowCheckout !in options && vcs.branching
    ensures BranchToFollow(f, co, repo, options, vcs) == Ok(f.descBranch)
  {
  }

  /** What sync does: nothing, go to a branch, or go to a revision (on a
      branch when one is given). */
  datatype SyncAction = Stay | GotoBranch(branch: Option<string>) | GotoRevision(revision: string, branch: Option<string>)

  /** The checkout's own choice when it does not follow: its revision, else
      its branch, else master. These tests are against None, not truth. */
  function OwnChoice(repo: Repository): (a: SyncAction)
    ensures a != Stay
    ensures a.GotoRevision? <==> repo.revision.Some?
    ensures a.GotoRevision? ==> a.revision == repo.revision.value && a.branch == repo.branch
    ensures a.GotoBranch? ==> a.branch == if repo.branch.Some? then repo.branch else Some(Master)
  {
    if repo.revision.Some? then GotoRevision(repo.revision.value, repo.branch)
    else if repo.branch.Some? then GotoBranch(repo.branch)
    else GotoBranch(Some(Master))
  }

  /** sync: where the checkout is moved. With `doSync` false nothing is
      done. Without a build description label the call fails on the None
      value. */
  function Sync(f: Following, co: Label, repo: Repository, options: map<string, Value>, vcs: Vcs, doSync: bool)
    : (r: Result<SyncAction>)
    ensures r.Err? <==> f.buildDesc.None?
    ensures r.Err? ==> r.error.Crash?
    ensures r.Ok? && !doSync ==> r.value == Stay
    ensures r.Ok? && IsBuildDesc(f, co) ==> r.value == if f.follow || !doSync then Stay else OwnChoice(repo)
    ensures r.Ok? && r.value.GotoBranch? && !IsBuildDesc(f, co) && f.follow && !Given(repo.revision) && !Given(repo.branch)
            ==> r.value.branch == f.descBranch
  {
    if f.buildDesc.None? then Err(Crash("the build description label is None"))
    else if MatchWithoutTag(f.buildDesc.value, co) then
      if f.follow || !doSync then Ok(Stay) else Ok(OwnChoice(repo))
    else
      var (follow, canSync) :=
        if Given(repo.revision) || Given(repo.branch) then (false, true)
        else if NoFollow in options then (false, false)
        else if !vcs.branching then (false, false)
        else if ShallowCheckout in options then (false, false)
        else (f.follow, true);
      if !doSync || !canSync then Ok(Stay)
      else if follow then Ok(GotoBranch(f.descBranch))
      else Ok(OwnChoice(repo))
  }

  /** A checkout that branch_to_follow puts on a branch is moved by sync to
      that same branch. */
  lemma SyncGoesWhereFollowed(f: Following, co: Label, repo: Repository, options: map<string, Value>, vcs: Vcs, b: string)
    requires !IsBuildDesc(f, co) && BranchToFollow(f, co, repo, options, vcs) == Ok(Some(b))
    ensures Sync(f, co, repo, options, vcs, true) == Ok(GotoBranch(Some(b)))
  {
  }

  /** Where branch_to_follow refuses (a shallow checkout, or a VCS without
      branching), sync does nothing. */
  lemma SyncStaysWhereRefused(f: Following, co: Label, repo: Repository, options: map<string, Value>, vcs: Vcs, doSync: bool)
    requires BranchToFollow(f, co, repo, options, vcs).Err?
    ensures Sync(f, co, repo, options, vcs, doSync) == Ok(Stay)
  {
  }

  /** A checkout that names a revision is synchronised to that revision, on
      its own branch, whatever the build description follows. */
  lemma SyncToRevision(f: Following, co: Label, repo: Repository, options: map<string, Value>, vcs: Vcs)
    requires f.buildDesc.Some? && !IsBuildDesc(f, co) && Given(repo.revision)
    ensures Sync(f, co, repo, options, vcs, true) == Ok(GotoRevision(repo.revision.value, repo.branch))
  {
  }

  /** A checkout that names a branch and no revision goes to that branch. */
  lemma SyncToBranch(f: Following, co: Label, repo: Repository, options: map<string, Value>, vcs: Vcs)
    requires f.buildDesc.Some? && !IsBuildDesc(f, co) && repo.revision.None? && Given(repo.branch)
    ensures Sync(f, co, repo, options, vcs, true) == Ok(GotoBranch(repo.branch))
  {
  }

  /** With no revision, no branch and no following, a checkout that may be
      moved goes to master. */
  lemma SyncDefaultsToMaster(f: Following, co: Label, repo: Repository, options: map<string, Value>, vcs: Vcs)
    requires f.buildDesc.Some? && !f.follow && repo.revision.None? && repo.branch.None?
    requires IsBuildDesc(f, co) || (NoFollow !in options && ShallowCheckout !in options && vcs.branching)
    ensures Sync(f, co, repo, options, vcs, true) == Ok(GotoBranch(Some(Master)))
  {
  }

  // ---------------------------------------------------------------------
  // Permission checks before a VCS operation

  /** The repository pull and push act on: the one given with an upstream
      name when both are given, otherwise the checkout's own. */
  function OperationRepo(own: Repository, upstream: Option<string>, given: Option<Repository>): (r: Repository)
    ensures r == own || (given.Some? && r == given.value)
    ensures Given(upstream) && given.Some? ==> r == given.value
    ensures !Given(upstream) ==> r == own
  {
    if Given(upstream) && given.Some? then given.value else own
  }

  /** checkout, pull and merge: the repository must allow pulling; a branch
      to follow (a non-empty one) then replaces the repository's branch and
      clears its revision. The branch to follow is decided on the checkout's
      own repository. */
  function PullingRepo(repo: Repository, follow: Result<Option<string>>): (r: Result<Repository>)
    ensures r.Ok? <==> repo.pull && follow.Ok?
    ensures !repo.pull ==> r.Err? && r.error.GiveUp?
    ensures r.Ok? && Given(follow.value) ==> r.value.branch == follow.value && r.value.revision.None?
    ensures r.Ok? && !Given(follow.value) ==> r.value == repo
    ensures r.Ok? ==> r.value.vcs == repo.vcs && r.value.url == repo.url && r.value.pull && r.value.push == repo.push
  {
    if !repo.pull then Err(GiveUp("the repository does not allow \"pull\""))
    else if follow.Err? then Err(follow.error)
    else if Given(follow.value) then Ok(CopyWithChangedBranch(repo, follow.value, None))
    else Ok(repo)
  }

  /** push: the repository must allow pushing, and when a branch is
      expected (the followed one, else the repository's) the checkout must
      be on it. `current` is what asking the VCS for the current branch
      gives. */
  function PushingRepo(repo: Repository, follow: Result<Option<string>>, current: Result<Option<string>>)
    : (r: Result<Repository>)
    ensures r.Ok? ==> r.value == repo && repo.push && follow.Ok?
    ensures !repo.push ==> r.Err? && r.error.GiveUp?
    ensures r.Ok? && follow.value.Some? ==> current == Ok(follow.value)
    ensures r.Ok? && follow.value.None? && repo.branch.Some? ==> current == Ok(repo.branch)
    ensures repo.push && follow.Ok? && follow.value.None? && repo.branch.None? ==> r == Ok(repo)
  {
    if !repo.push then Err(GiveUp("the repository does not allow \"push\""))
    else if follow.Err? then Err(follow.error)
    else
      var expected := if follow.value.None? then repo.branch else follow.value;
      if expected.None? then Ok(repo)
      else if current.Err? then Err(GiveUp("cannot tell the checkout's current branch"))
      else if current.value != expected then Err(GiveUp("the checkout is not on the expected branch; refusing to push"))
      else Ok(repo)
  }

  /** A pull with a branch to follow acts on that branch whatever the
      repository named, and checks out its head. */
  lemma PullFollowsBranch(own: Repository, upstream: Option<string>, given: Option<Repository>, b: string)
    requires b != "" && OperationRepo(own, upstream, given).pull
    ensures var r := PullingRepo(OperationRepo(own, upstream, given), Ok(Some(b)));
      r.Ok? && r.value.branch == Some(b) && r.value.revision.None?
  {
  }

  // ---------------------------------------------------------------------
  // The registry of VCS handlers

  /** vcs_dict and vcs_docs: the handler registered for each VCS scheme
      and its documentation. */
  class VcsRegistry {
    var handlers: map<string, Vcs>
    var docs: map<string, Option<string>>

    constructor ()
      ensures handlers == map[] && docs == map[]
    {
      handlers := map[];
      docs := map[];
    }

    /** register_vcs: a scheme registered again is overwritten. */
    method Register(scheme: string, vcs: Vcs, doc: Option<string>)
      modifies this
      ensures handlers == old(handlers)[scheme := vcs]
      ensures docs == old(docs)[scheme := doc]
    {
      handlers := handlers[scheme := vcs];
      docs := docs[scheme := doc];
    }

    /** get_vcs_instance: an unregistered scheme is a MuddleBug. */
    function Instance(scheme: string): (r: Result<Vcs>)
      reads this
      ensures r.Ok? <==> scheme in handlers
      ensures r.Ok? ==> r.value == handlers[scheme]
      ensures r.Err? ==> r.error.MuddleBug?
    {
      if scheme in handlers then Ok(handlers[scheme])
      else Err(MuddleBug("No VCS handler registered for VCS type " + scheme))
    }

    /** get_vcs_docs: an unregistered scheme is a GiveUp. */
    function Docs(scheme: string): (r: Result<Option<string>>)
      reads this
      ensures r.Ok? <==> scheme in docs
      ensures r.Ok? ==> r.value == docs[scheme]
      ensures r.Err? ==> r.error.GiveUp?
    {
      if scheme in docs then Ok(docs[scheme])
      else Err(GiveUp("No VCS handler registered for VCS type " + scheme))
    }

    /** get_vcs_instance_from_string: "<vcs>+<url>" gives the handler for
        <vcs> and the rest of the string. */
    function InstanceFromString(spec: string): (r: Result<(Vcs, string)>)
      reads this
      ensures r.Ok? <==> SplitVcsUrl(spec).0.Some? && SplitVcsUrl(spec).0.value in handlers
      ensures r.Ok? ==> r.value == (handlers[SplitVcsUrl(spec).0.value], SplitVcsUrl(spec).1.value)
      ensures r.Err? ==> r.error.MuddleBug?
    {
      var (vcs, rest) := SplitVcsUrl(spec);
      if vcs.None? then Err(MuddleBug("Improperly formatted repository spec, should be <vcs>+<url>"))
      else match Instance(vcs.value)
        case Err(e) => Err(e)
        case Ok(h) => Ok((h, rest.value))
    }
  }

  /** A registered scheme is found again, with the handler and documents
      given last. */
  lemma RegisteredFound(handlers: map<string, Vcs>, scheme: string, vcs: Vcs, other: string)
    ensures scheme in handlers[scheme := vcs] && handlers[scheme := vcs][scheme] == vcs
    ensures other != scheme ==> (other in handlers[scheme := vcs] <==> other in handlers)
  {
  }

  // ---------------------------------------------------------------------
  // Declaring a checkout

  /** The leaf directory of a checkout: the one given, else the label's
      name. */
  function CheckoutLeaf(co: Label, coLeaf: Option<string>): (leaf: string)
    ensures Given(coLeaf) ==> leaf == coLeaf.value
    ensures !Given(coLeaf) ==> leaf == co.name
  {
    if Given(coLeaf) then coLeaf.value else co.name
  }

  /** The action that checks a checkout out with its VCS. */
  function CheckoutAction(vcs: Vcs): Rules.Action {
    Rules.Builder(vcs.shortName)
  }

  /** checkout_from_repo: the repository must allow pulling and name a
      registered VCS; the checkout's data is filed under its label and its
      rules are added. */
  method CheckoutFromRepo(db: Database, rs: Rules.RuleSet, registry: VcsRegistry, co: Label, repo: Repository,
                          coDir: Option<string>, coLeaf: Option<string>)
    returns (o: Outcome)
    requires db.Valid() && rs.Valid()
    modifies db, rs
    ensures db.Valid() && rs.Valid()
    ensures o.Pass? <==> repo.pull && repo.vcs in registry.handlers && co.ty == Vocabulary.Checkout
    ensures o.Fail? ==> o.error.MuddleBug?
    ensures !repo.pull || repo.vcs !in registry.handlers ==> unchanged(db) && unchanged(rs)
    ensures o.Pass? ==> CheckoutKey(co) in db.checkoutData
    ensures o.Pass? ==> var data := db.checkoutData[CheckoutKey(co)];
      data.repo == repo && data.dir == coDir && data.leaf == CheckoutLeaf(co, coLeaf)
      && data.vcs == registry.handlers[repo.vcs].shortName && data.options == map[]
    ensures o.Pass? ==> var vcs := registry.handlers[repo.vcs];
      rs.rules == Packages.CheckoutRuleMap(old(rs.rules), co, CheckoutAction(vcs), vcs.mustPullBeforeCommit)
  {
    if !repo.pull {
      return Fail(MuddleBug("the checkout's main repository does not allow \"pull\""));
    }
    var vcs := registry.Instance(repo.vcs);
    if vcs.Err? {
      return Fail(MuddleBug("Cannot determine VCS for checkout"));
    }
    var leaf := CheckoutLeaf(co, coLeaf);
    var data := new CheckoutData(vcs.value.shortName, vcs.value.allowedOptions, repo, coDir, leaf);
    o := db.SetCheckoutData(co, data);
    if o.Fail? {
      return;
    }
    Packages.AddCheckoutRules(rs, co, CheckoutAction(vcs.value), vcs.value.mustPullBeforeCommit);
  }
}
