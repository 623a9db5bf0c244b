/** The post and comment records the components display, and the optimistic
    like updater that the feed card and the post page both apply once the
    server reports that the like was toggled. */
module Posts {

  datatype Author = Author(id: string, name: string, username: string)

  datatype PostFile = PostFile(
    id: string, fileName: string, fileUrl: string, fileType: string, fileSize: int, version: int)

  /** A post as shown to one viewer: `liked` says whether that viewer likes
      it, `likes` and `comments` are the counts. */
  datatype Post = Post(
    id: string, user: Author, moduleName: string, title: string,
    likes: int, comments: int, timestamp: string, liked: bool, files: seq<PostFile>)

  datatype Comment = Comment(id: string, content: string, timestamp: string, user: Author)

  /** The state updater after a successful like call: the viewer's flag flips
      and the count moves by one in the matching direction; nothing else about
      the post changes. */
  function ToggleLike(prev: Post): (next: Post)
    ensures next.liked == !prev.liked
    ensures next.likes - prev.likes == (if prev.liked then -1 else 1)
    ensures next == prev.(liked := next.liked, likes := next.likes)
  {
    prev.(liked := !prev.liked, likes := if prev.liked then prev.likes - 1 else prev.likes + 1)
  }

  /** Two successful toggles bring the post back to what it was. */
  lemma ToggleTwice(p: Post)
    ensures ToggleLike(ToggleLike(p)) == p
  {
  }

  /** A count that agrees with the viewer's own flag: never negative, and at
      least one while the viewer likes the post. */
  predicate LikesConsistent(p: Post) {
    p.likes >= 0 && (p.liked ==> p.likes >= 1)
  }

  /** Toggling keeps the count in agreement with the flag. */
  lemma ToggleKeepsConsistent(p: Post)
    requires LikesConsistent(p)
    ensures LikesConsistent(ToggleLike(p))
  {
  }
}
