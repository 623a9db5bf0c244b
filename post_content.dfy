/** The body of the post page. It starts from the post it was given and
    toggles the like once the server confirms it. */
module PostContentComponent {
  import opened Posts

  class PostContent {
    var post: Post

    /** The state starts as the post passed in. */
    constructor (content: Post)
      ensures post == content
    {
      post := content;
    }

    /** `handleLike`: asks the server to toggle the like of the shown post
        (the returned id is the one sent) and toggles the local copy only on
        success. */
    method HandleLike(success: bool) returns (requestedId: string)
      modifies this
      ensures requestedId == old(post).id
      ensures post == (if success then ToggleLike(old(post)) else old(post))
    {
      requestedId := post.id;
      if success {
        post := ToggleLike(post);
      }
    }
  }
}
