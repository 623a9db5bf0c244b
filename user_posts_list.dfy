/** The list of the signed-in user's own posts on the profile page. It
    fetches the user's post rows, fetches the detail of each, keeps the rows
    whose detail arrived, and deletes a post on request. */
module UserPostsListComponent {
  import opened Common
  import opened Posts

  const FetchFailed := "Ein Fehler ist beim Abrufen der Beiträge aufgetreten."
  const DeleteFailed := "Beim Löschen des Beitrags ist ein Fehler aufgetreten"
  const DeleteThrew := "Ein Fehler ist beim Löschen des Beitrags aufgetreten."

  /** A row of the user's post list: the id to look up, and when it was made. */
  datatype PostRow = PostRow(id: string, createdAt: string)

  datatype PostWithDetails = PostWithDetails(
    id: string, title: string, moduleName: string, files: seq<PostFile>, createdAt: string)

  /** The answer of `deletePost`: it throws, or reports success or an error. */
  datatype DeleteResult = DeleteThrows | Deleted(success: bool, error: Option<string>)

  /** What the list renders. */
  datatype View = Spinner | ErrorText(message: string) | Listing(posts: seq<PostWithDetails>, showEmptyNote: bool)

  /** A merged entry: the post's own fields from the detail, the creation
      time from the list row. */
  function Entry(row: PostRow, detail: Post): PostWithDetails {
    PostWithDetails(detail.id, detail.title, detail.moduleName, detail.files, row.createdAt)
  }

  function PostId(p: PostWithDetails): string {
    p.id
  }

  /** The detail data a per-row lookup produced, if any. */
  function DetailData(d: Call<Post>): Option<Post> {
    if d.Resolved? then d.data else None
  }

  /** The detail data of every lookup, in row order. */
  function Fetched(details: seq<Call<Post>>): seq<Option<Post>> {
    seq(|details|, i requires 0 <= i < |details| => DetailData(details[i]))
  }

  predicate AnyThrew(details: seq<Call<Post>>) {
    exists i | 0 <= i < |details| :: details[i].Threw?
  }

  predicate AnyMissing(details: seq<Call<Post>>) {
    exists i | 0 <= i < |details| :: details[i] == Resolved(None)
  }

  /** The rows paired with their details, with every row whose detail did
      not arrive dropped; the rest keep the order of the rows. */
  function MergeDetails(rows: seq<PostRow>, details: seq<Option<Post>>): (r: seq<PostWithDetails>)
    requires |details| == |rows|
    ensures |r| <= |rows|
    ensures forall i | 0 <= i < |rows| && details[i].Some? :: Entry(rows[i], details[i].value) in r
    ensures forall e <- r :: exists i | 0 <= i < |rows| :: details[i].Some? && e == Entry(rows[i], details[i].value)
  {
    if rows == [] then []
    else
      var rest := MergeDetails(rows[1..], details[1..]);
      assert forall i | 1 <= i < |rows| :: rows[1..][i - 1] == rows[i] && details[1..][i - 1] == details[i];
      if details[0].Some? then [Entry(rows[0], details[0].value)] + rest else rest
  }

  /** When every detail arrived, the merge pairs each row with its own
      detail, in row order. */
  lemma {:induction false} MergeAllArrived(rows: seq<PostRow>, details: seq<Option<Post>>)
    requires |details| == |rows|
    requires forall i | 0 <= i < |details| :: details[i].Some?
    ensures |MergeDetails(rows, details)| == |rows|
    ensures forall i | 0 <= i < |rows| :: MergeDetails(rows, details)[i] == Entry(rows[i], details[i].value)
  {
    if rows != [] {
      assert forall i | 1 <= i < |rows| :: rows[1..][i - 1] == rows[i] && details[1..][i - 1] == details[i];
      MergeAllArrived(rows[1..], details[1..]);
    }
  }

  /** Merging distributes over concatenation of the rows: the entries of the
      earlier rows come first. */
  lemma {:induction false} MergeAppend(rows1: seq<PostRow>, details1: seq<Option<Post>>,
                                       rows2: seq<PostRow>, details2: seq<Option<Post>>)
    requires |details1| == |rows1| && |details2| == |rows2|
    ensures MergeDetails(rows1 + rows2, details1 + details2)
         == MergeDetails(rows1, details1) + MergeDetails(rows2, details2)
  {
    if rows1 == [] {
      assert rows1 + rows2 == rows2 && details1 + details2 == details2;
    } else {
      assert (rows1 + rows2)[1..] == rows1[1..] + rows2;
      assert (details1 + details2)[1..] == details1[1..] + details2;
      MergeAppend(rows1[1..], details1[1..], rows2, details2);
    }
  }

  /** A row is dropped exactly when its detail did not arrive. */
  lemma {:induction false} MergeShorterIffMissing(rows: seq<PostRow>, details: seq<Option<Post>>)
    requires |details| == |rows|
    ensures |MergeDetails(rows, details)| < |rows| <==> exists i | 0 <= i < |details| :: details[i].None?
  {
    if rows != [] {
      MergeShorterIffMissing(rows[1..], details[1..]);
      if exists i | 0 <= i < |details[1..]| :: details[1..][i].None? {
        var i :| 0 <= i < |details[1..]| && details[1..][i].None?;
        assert details[i + 1].None?;
      }
      if exists i | 0 <= i < |details| :: details[i].None? {
        var i :| 0 <= i < |details| && details[i].None?;
        if i > 0 {
          assert details[1..][i - 1].None?;
        }
      }
    }
  }

  /** When no lookup threw, the merged list is shorter than the rows exactly
      when some lookup delivered no data, which is exactly when the fetch
      sets its error. */
  lemma MergeDropsIffMissing(rows: seq<PostRow>, details: seq<Call<Post>>)
    requires |details| == |rows| && !AnyThrew(details)
    ensures |MergeDetails(rows, Fetched(details))| < |rows| <==> AnyMissing(details)
  {
    var fetched := Fetched(details);
    MergeShorterIffMissing(rows, fetched);
    if AnyMissing(details) {
      var i :| 0 <= i < |details| && details[i] == Resolved(None);
      assert fetched[i].None?;
    }
    if exists i | 0 <= i < |fetched| :: fetched[i].None? {
      var i :| 0 <= i < |fetched| && fetched[i].None?;
      assert details[i] == Resolved(None);
    }
  }

  class UserPostsList {
    const userId: string
    var posts: seq<PostWithDetails>
    var loading: bool
    var error: Option<string>
    var deletingPostId: Option<string>

    constructor (userId: string)
      ensures this.userId == userId
      ensures posts == [] && loading && error == None && deletingPostId == None
    {
      this.userId := userId;
      posts := [];
      loading := true;
      error := None;
      deletingPostId := None;
    }

    /** Spinner while loading, else the error in place of the whole list,
        else the posts (with the "no posts yet" note when there are none). */
    function Render(): (v: View)
      reads this
      ensures v == Spinner <==> loading
      ensures v.ErrorText? <==> !loading && Truthy(error)
      ensures v.ErrorText? ==> v.message == error.value
      ensures v.Listing? ==> v.posts == posts && (v.showEmptyNote <==> posts == [])
    {
      if loading then Spinner
      else if Truthy(error) then ErrorText(error.value)
      else Listing(posts, posts == [])
    }

    /** `fetchUserPosts`, with the answer of `getPostsByUser` and, when it
        delivered rows, the answer of `getPost` for each row in order. No rows:
        the error is set and the list stays as it was. A thrown lookup: the
        error is set and the list stays as it was. Otherwise the list becomes
        the merge, and a missing detail also sets the error. Loading ends in
        every case. */
    method FetchUserPosts(listing: Call<seq<PostRow>>, details: seq<Call<Post>>)
      requires listing.Resolved? && listing.data.Some? ==> |details| == |listing.data.value|
      modifies this
      ensures !loading && deletingPostId == old(deletingPostId)
      ensures listing.Threw? || listing.data.None? ==> posts == old(posts) && error == Some(FetchFailed)
      ensures listing.Resolved? && listing.data.Some? && AnyThrew(details) ==>
        posts == old(posts) && error == Some(FetchFailed)
      ensures listing.Resolved? && listing.data.Some? && !AnyThrew(details) ==>
        && posts == MergeDetails(listing.data.value, Fetched(details))
        && error == (if AnyMissing(details) then Some(FetchFailed) else old(error))
      ensures listing.Threw? || listing.data.None? || AnyThrew(details) || AnyMissing(details) ==>
        Render() == ErrorText(FetchFailed)
    {
      loading := true;
      if listing.Threw? {
        error := Some(FetchFailed);
        loading := false;
        return;
      }
      if listing.data.None? {
        error := Some(FetchFailed);
        loading := false;
        return;
      }
      var rows := listing.data.value;
      var fetched: seq<Option<Post>> := [];
      var i := 0;
      var threw := false;
      while i < |rows|
        invariant 0 <= i <= |rows|
        invariant |fetched| == i
        invariant posts == old(posts) && deletingPostId == old(deletingPostId)
        invariant forall j | 0 <= j < i :: fetched[j] == DetailData(details[j])
        invariant threw <==> exists j | 0 <= j < i :: details[j].Threw?
        invariant error == (if exists j | 0 <= j < i :: details[j] == Resolved(None) then Some(FetchFailed) else old(error))
      {
        var d := details[i];
        if d.Threw? {
          threw := true;
        } else if d.data.None? {
          error := Some(FetchFailed);
        }
        fetched := fetched + [DetailData(d)];
        i := i + 1;
      }
      if threw {
        error := Some(FetchFailed);
      } else {
        assert fetched == Fetched(details);
        posts := MergeDetails(rows, fetched);
      }
      loading := false;
    }

    /** The part of `handleDeletePost` before the server call: the post being
        deleted is recorded. */
    method BeginDelete(postId: string)
      modifies this
      ensures deletingPostId == Some(postId)
      ensures posts == old(posts) && loading == old(loading) && error == old(error)
    {
      deletingPostId := Some(postId);
    }

    /** The part of `handleDeletePost` after `deletePost` has answered. On
        success exactly the posts with that id leave the list; on a reported
        failure the list stays and the server's message (or the default one)
        becomes the error; on a throw the list stays and the error is set. The
        record of the post being deleted is cleared in every case. */
    method EndDelete(postId: string, result: DeleteResult)
      modifies this
      ensures deletingPostId == None && loading == old(loading)
      ensures result.Deleted? && result.success ==>
        posts == Without(old(posts), PostId, postId) && error == old(error)
      ensures result.Deleted? && !result.success ==>
        posts == old(posts) && error == Some(if Truthy(result.error) then result.error.value else DeleteFailed)
      ensures result.DeleteThrows? ==> posts == old(posts) && error == Some(DeleteThrew)
    {
      if result.DeleteThrows? {
        error := Some(DeleteThrew);
      } else if !result.success {
        error := Some(if Truthy(result.error) then result.error.value else DeleteFailed);
      } else {
        posts := Without(posts, PostId, postId);
      }
      deletingPostId := None;
    }

    /** `handleDeletePost`, with the server's answer given up front. */
    method HandleDeletePost(postId: string, result: DeleteResult)
      modifies this
      ensures deletingPostId == None && loading == old(loading)
      ensures result.Deleted? && result.success ==>
        && posts == Without(old(posts), PostId, postId) && error == old(error)
        && (forall p <- posts :: p.id != postId)
        && (forall p <- old(posts) :: p.id != postId ==> p in posts)
      ensures result.Deleted? && !result.success ==>
        posts == old(posts) && error == Some(if Truthy(result.error) then result.error.value else DeleteFailed)
      ensures result.DeleteThrows? ==> posts == old(posts) && error == Some(DeleteThrew)
      ensures !(result.Deleted? && result.success) ==> Truthy(error)
    {
      BeginDelete(postId);
      EndDelete(postId, result);
    }
  }
}
