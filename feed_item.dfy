/** One card of the feed. It loads its post by id, shows a skeleton until the
    post is there, and toggles the like once the server confirms it. */
module FeedItemComponent {
  import opened Common
  import opened Posts

  /** What the card renders. */
  datatype View = Skeleton | ErrorText(message: Option<string>) | Card(post: Post)

  class FeedItem {
    const itemId: string
    var item: Option<Post>
    var loading: bool
    var error: Option<string>

    constructor (itemId: string)
      ensures this.itemId == itemId
      ensures item == None && loading && error == None
    {
      this.itemId := itemId;
      item := None;
      loading := true;
      error := None;
    }

    /** The card: a skeleton while loading, then the error text if there is
        an error or no post, otherwise the post. */
    function Render(): (v: View)
      reads this
      ensures v == Skeleton <==> loading
      ensures v.Card? <==> !loading && !Truthy(error) && item.Some?
      ensures v.Card? ==> v.post == item.value
      ensures v.ErrorText? ==> v.message == error
    {
      if loading then Skeleton
      else if Truthy(error) || item.None? then ErrorText(error)
      else Card(item.value)
    }

    /** `loadPost` once `getPost(itemId)` has answered with `data` and
        `err`. A failure stores the error as given and leaves `loading` set,
        so the card keeps showing its skeleton; a success stores the post and
        ends loading. */
    method LoadPost(data: Option<Post>, err: Option<string>)
      modifies this
      ensures Truthy(err) || data.None? ==>
        item == old(item) && loading == old(loading) && error == err
      ensures !Truthy(err) && data.Some? ==>
        item == data && !loading && error == old(error)
      ensures !Truthy(err) && data.Some? && !Truthy(old(error)) ==> Render() == Card(data.value)
      ensures old(loading) && (Truthy(err) || data.None?) ==> Render() == Skeleton
    {
      if Truthy(err) || data.None? {
        error := err;
        return;
      }
      item := data;
      loading := false;
    }

    /** `handleLike`: without a loaded post nothing happens and the server is
        not called; otherwise the server is asked to toggle the like of
        `postId` (the id returned) and only on success is the post toggled. */
    method HandleLike(postId: string, success: bool) returns (requested: Option<string>)
      modifies this
      ensures requested == (if old(item).Some? then Some(postId) else None)
      ensures item == (if old(item).Some? && success then Some(ToggleLike(old(item).value)) else old(item))
      ensures loading == old(loading) && error == old(error)
    {
      if item.None? {
        return None;
      }
      requested := Some(postId);
      if success {
        item := Some(ToggleLike(item.value));
      }
    }
  }
}
