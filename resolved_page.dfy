/** The admin page of resolved reports: the resolved filter over a fetch, the
    set of expanded descriptions, the read-more threshold and the removal
    after a confirmed delete. Server answers are parameters. */
module ResolvedPage {
  import opened Wrappers
  import opened Dashboard

  const ResolvedFetchFailed := "Failed to fetch resolved reports. Please try again later."

  /** Longer descriptions get a read-more link. */
  const ReadMoreThreshold := 150

  function ShowsReadMore(description: string): (shown: bool)
    ensures shown <==> |description| >= ReadMoreThreshold + 1
  {
    |description| > ReadMoreThreshold
  }

  /** Adds an id that is absent, removes one that is present. */
  function ToggleId(expanded: set<string>, id: string): (r: set<string>)
    ensures id in r <==> id !in expanded
    ensures forall other :: other != id ==> (other in r <==> other in expanded)
  {
    if id in expanded then expanded - {id} else expanded + {id}
  }

  /** Two toggles of the same id restore the set. */
  lemma {:induction false} ToggleTwiceRestores(expanded: set<string>, id: string)
    ensures ToggleId(ToggleId(expanded, id), id) == expanded
  {
    var once := ToggleId(expanded, id);
    assert forall x :: x in ToggleId(once, id) <==> x in expanded;
  }

  /** `prevPosts.filter(p => p._id !== id)`. */
  function WithoutId(posts: seq<AdminPost>, id: string): (r: seq<AdminPost>)
    ensures forall p :: p in r <==> p in posts && p.id != id
    ensures |r| <= |posts|
  {
    if posts == [] then []
    else
      var rest := WithoutId(posts[1..], id);
      assert forall p :: p in posts <==> p == posts[0] || p in posts[1..];
      if posts[0].id != id then [posts[0]] + rest else rest
  }

  /** The number of reports carrying an id. */
  function CountId(posts: seq<AdminPost>, id: string): nat {
    if posts == [] then 0 else (if posts[0].id == id then 1 else 0) + CountId(posts[1..], id)
  }

  /** Removing an id drops exactly the reports carrying it: one, when ids
      are unique. */
  lemma {:induction false} WithoutIdLength(posts: seq<AdminPost>, id: string)
    ensures |WithoutId(posts, id)| == |posts| - CountId(posts, id)
  {
    if posts != [] {
      WithoutIdLength(posts[1..], id);
    }
  }

  class ResolvedView {
    var resolvedPosts: seq<AdminPost>
    var error: Option<string>
    var showModal: bool
    var selectedPost: Option<AdminPost>
    var expanded: set<string>

    constructor()
      ensures resolvedPosts == [] && error == None && !showModal && selectedPost == None && expanded == {}
    {
      resolvedPosts, error, showModal, selectedPost, expanded := [], None, false, None, {};
    }

    /** `fetchResolvedPosts`: only reports whose status is exactly
        "resolved" are kept; a failure sets the error and leaves the list as
        it was. */
    method ApplyFetch(result: FetchResult)
      modifies this
      ensures result.Fetched? ==> resolvedPosts == WithStatus(result.posts, "resolved") && error == old(error)
      ensures result.FetchFailed? ==> resolvedPosts == old(resolvedPosts) && error == Some(ResolvedFetchFailed)
      ensures showModal == old(showModal) && selectedPost == old(selectedPost) && expanded == old(expanded)
    {
      match result
      case Fetched(received) =>
        resolvedPosts := WithStatus(received, "resolved");
      case FetchFailed =>
        error := Some(ResolvedFetchFailed);
    }

    /** `toggleDescription`. */
    method ToggleDescription(id: string)
      modifies this
      ensures expanded == ToggleId(old(expanded), id)
      ensures resolvedPosts == old(resolvedPosts) && error == old(error)
      ensures showModal == old(showModal) && selectedPost == old(selectedPost)
    {
      var copy := expanded;
      if id in copy {
        copy := copy - {id};
      } else {
        copy := copy + {id};
      }
      expanded := copy;
    }

    /** `handleDelete`: the report is selected and the confirmation opened. */
    method HandleDelete(post: AdminPost)
      modifies this
      ensures selectedPost == Some(post) && showModal
      ensures resolvedPosts == old(resolvedPosts) && error == old(error) && expanded == old(expanded)
    {
      selectedPost := Some(post);
      showModal := true;
    }

    /** `confirmDelete`, pressed in the open confirmation: an accepted delete
        drops the selected report's id and closes the dialog; a refused one
        changes nothing. */
    method ConfirmDelete(accepted: bool)
      requires selectedPost.Some?
      modifies this
      ensures accepted ==> resolvedPosts == WithoutId(old(resolvedPosts), old(selectedPost).value.id)
      ensures accepted ==> !showModal && selectedPost == None
      ensures !accepted ==> resolvedPosts == old(resolvedPosts) && showModal == old(showModal) && selectedPost == old(selectedPost)
      ensures error == old(error) && expanded == old(expanded)
    {
      if accepted {
        resolvedPosts := WithoutId(resolvedPosts, selectedPost.value.id);
        showModal := false;
        selectedPost := None;
      }
    }
  }
}
