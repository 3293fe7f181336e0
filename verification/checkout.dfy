/** Resolution of the reference passed to `git checkout` (git_clone.rb:131-146). */
module Checkout {
  import opened Wrappers
  import opened CliOptions

  /** The reference used when neither commit hash, tag nor branch was given. */
  const DefaultRef: string := "master"

  /** Commit hash over tag over branch over the default name; an empty value counts as not given. */
  function CheckoutRef(commitHash: Option<string>, tag: Option<string>, branch: Option<string>): (r: string)
    ensures |r| > 0
    ensures Present(commitHash) ==> r == commitHash.value
    ensures !Present(commitHash) && Present(tag) ==> r == tag.value
    ensures !Present(commitHash) && !Present(tag) && Present(branch) ==> r == branch.value
    ensures !Present(commitHash) && !Present(tag) && !Present(branch) ==> r == DefaultRef
  {
    if commitHash.Some? && |commitHash.value| > 0 then commitHash.value
    else if tag.Some? && |tag.value| > 0 then tag.value
    else if branch.Some? && |branch.value| > 0 then branch.value
    else DefaultRef
  }

  /**
   * The general rule the precedence follows: the value of the first
   * candidate that is present, or the fallback when none is.
   */
  function FirstPresent(candidates: seq<Option<string>>, fallback: string): (r: string)
    ensures (forall i :: 0 <= i < |candidates| ==> !Present(candidates[i])) ==> r == fallback
    ensures forall i :: (0 <= i < |candidates| && Present(candidates[i]) &&
                         forall j :: 0 <= j < i ==> !Present(candidates[j])) ==> r == candidates[i].value
  {
    if |candidates| == 0 then fallback
    else if Present(candidates[0]) then candidates[0].value
    else FirstPresent(candidates[1..], fallback)
  }

  /** The resolved reference is the first given one of commit hash, tag and branch, else the default. */
  lemma CheckoutRefIsFirstPresent(commitHash: Option<string>, tag: Option<string>, branch: Option<string>)
    ensures CheckoutRef(commitHash, tag, branch) == FirstPresent([commitHash, tag, branch], DefaultRef)
  {
    var cs := [commitHash, tag, branch];
    if !Present(commitHash) && !Present(tag) && !Present(branch) {
      assert forall i :: 0 <= i < |cs| ==> !Present(cs[i]);
    } else if !Present(commitHash) && !Present(tag) {
      assert Present(cs[2]);
    } else if !Present(commitHash) {
      assert Present(cs[1]);
    } else {
      assert Present(cs[0]);
    }
  }
}
