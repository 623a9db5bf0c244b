/** The comment thread under a post: it loads the comments, lets the viewer
    write one, and puts a created comment at the top of the list. */
module CommentSectionComponent {
  import opened Common
  import opened Text
  import opened Posts

  const LoadFailed := "Fehler beim Laden der Kommentare."
  const CreateFailed := "Beim Erstellen des Kommentars ist ein Fehler aufgetreten."

  /** The heading in front of the comment count. */
  const CountPrefix := "Kommentare ("

  class CommentSection {
    const postId: string
    const username: string
    var comments: seq<Comment>
    var newComment: string
    var loading: bool
    var submitting: bool
    var error: Option<string>

    constructor (postId: string, username: string)
      ensures this.postId == postId && this.username == username
      ensures comments == [] && newComment == "" && loading && !submitting && error == None
    {
      this.postId := postId;
      this.username := username;
      comments := [];
      newComment := "";
      loading := true;
      submitting := false;
      error := None;
    }

    /** `loadComments` once `getComments(postId)` has answered: returned data
        replaces the list, a throw sets the load error, and loading ends
        either way. */
    method LoadComments(result: Call<seq<Comment>>)
      modifies this
      ensures comments == (if result.Resolved? && result.data.Some? then result.data.value else old(comments))
      ensures error == (if result.Threw? then Some(LoadFailed) else old(error))
      ensures !loading
      ensures newComment == old(newComment) && submitting == old(submitting)
    {
      if result.Resolved? && result.data.Some? {
        comments := result.data.value;
      } else if result.Threw? {
        error := Some(LoadFailed);
      }
      loading := false;
    }

    /** The text area's change handler. */
    method SetNewComment(text: string)
      modifies this
      ensures newComment == text
      ensures comments == old(comments) && loading == old(loading)
      ensures submitting == old(submitting) && error == old(error)
    {
      newComment := text;
    }

    /** The part of `handleSubmitComment` before the server call. Input that
        is only whitespace changes nothing and sends nothing; otherwise the
        form is marked as submitting, the previous error is cleared, and the
        untrimmed input is what gets sent. */
    method BeginSubmit() returns (sent: Option<string>)
      modifies this
      ensures IsBlank(old(newComment)) ==> sent == None && submitting == old(submitting) && error == old(error)
      ensures !IsBlank(old(newComment)) ==> sent == Some(old(newComment)) && submitting && error == None
      ensures comments == old(comments) && newComment == old(newComment) && loading == old(loading)
    {
      TrimEmptyIffBlank(newComment);
      if Trim(newComment) == "" {
        return None;
      }
      submitting := true;
      error := None;
      sent := Some(newComment);
    }

    /** The part of `handleSubmitComment` after `createComment` has answered.
        A returned comment goes first, ahead of the existing ones, and the
        input is cleared; missing data or a throw keeps the list and input and
        sets the error. Submitting ends in every case. */
    method EndSubmit(result: Call<Comment>)
      modifies this
      ensures result.Resolved? && result.data.Some? ==>
        comments == [result.data.value] + old(comments) && newComment == "" && error == old(error)
      ensures !(result.Resolved? && result.data.Some?) ==>
        comments == old(comments) && newComment == old(newComment) && error == Some(CreateFailed)
      ensures !submitting && loading == old(loading)
    {
      if result.Resolved? && result.data.Some? {
        comments := [result.data.value] + comments;
        newComment := "";
      } else {
        error := Some(CreateFailed);
      }
      submitting := false;
    }

    /** `handleSubmitComment`, with the server's answer given up front; it is
        only consulted when a comment is actually sent. */
    method HandleSubmitComment(result: Call<Comment>) returns (sent: Option<string>)
      modifies this
      ensures IsBlank(old(newComment)) ==>
        sent == None && comments == old(comments) && newComment == old(newComment)
        && submitting == old(submitting) && error == old(error)
      ensures !IsBlank(old(newComment)) ==> sent == Some(old(newComment)) && !submitting
      ensures !IsBlank(old(newComment)) && result.Resolved? && result.data.Some? ==>
        comments == [result.data.value] + old(comments) && newComment == "" && error == None
      ensures !IsBlank(old(newComment)) && !(result.Resolved? && result.data.Some?) ==>
        comments == old(comments) && newComment == old(newComment) && error == Some(CreateFailed)
      ensures loading == old(loading)
    {
      sent := BeginSubmit();
      if sent.Some? {
        EndSubmit(result);
      }
    }

    /** The thread heading: a skeleton (`None`) while loading, then
        "Kommentare (n)" with n the number of comments in the list. */
    function CountLabel(): (heading: Option<string>)
      reads this
      ensures heading.None? <==> loading
      ensures heading.Some? ==>
        && |CountPrefix| < |heading.value|
        && heading.value[..|CountPrefix|] == CountPrefix
        && heading.value[|heading.value| - 1] == ')'
        && AllDigits(heading.value[|CountPrefix|..|heading.value| - 1])
        && (heading.value[|CountPrefix|] == '0' ==> |comments| == 0)
        && ParseDecimal(heading.value[|CountPrefix|..|heading.value| - 1]) == |comments|
    {
      if loading then None
      else
        var digits := DecimalString(|comments|);
        var text := CountPrefix + digits + ")";
        assert text[|CountPrefix|..|text| - 1] == digits;
        DecimalRoundTrip(|comments|);
        Some(text)
    }
  }
}
