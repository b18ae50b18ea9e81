/** The standard label types and tags (utils.LabelType, utils.LabelTag) and
    the default tag for each type. */
module Vocabulary {
  import opened Wrappers

  // Label types
  const Checkout := "checkout"
  const Package := "package"
  const Deployment := "deployment"
  const Synthetic := "synth"

  // Checkout tags
  const CheckedOut := "checked_out"
  const Pulled := "pulled"
  const Merged := "merged"
  const ChangesCommitted := "changes_committed"
  const ChangesPushed := "changes_pushed"

  // Package tags
  const PreConfig := "preconfig"
  const Configured := "configured"
  const Built := "built"
  const Installed := "installed"
  const PostInstalled := "postinstalled"
  const Clean := "clean"
  const DistClean := "distclean"

  // Deployment tags
  const Deployed := "deployed"
  const InstructionsApplied := "instructionsapplied"

  // Other tags
  const Distributed := "distributed"
  const Loaded := "loaded"
  const Temporary := "temporary"
  const RuntimeEnv := "runtime_env"

  /** utils.label_type_to_tag: the final tag of each of the three main label
      types; any other type has none (a KeyError in Python). */
  function DefaultTag(ty: string): (r: Option<string>)
    ensures r.Some? <==> ty == Checkout || ty == Package || ty == Deployment
    ensures r.Some? ==> r.value in {CheckedOut, PostInstalled, Deployed}
    ensures ty == Checkout ==> r == Some(CheckedOut)
    ensures ty == Package ==> r == Some(PostInstalled)
    ensures ty == Deployment ==> r == Some(Deployed)
  {
    if ty == Checkout then Some(CheckedOut)
    else if ty == Package then Some(PostInstalled)
    else if ty == Deployment then Some(Deployed)
    else None
  }
}
