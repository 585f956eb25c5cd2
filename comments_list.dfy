/** The pagination of a slide's comment threads (comments/CommentsList/CommentsList.tsx): how many
    threads are rendered, and when that number grows. */
module CommentsList {
  import opened Numbers

  const CommentsPerPack := 15
  const AdditionalCommentsCountOnScroll := 5

  datatype Reply = Reply(id: int)
  datatype Comment = Comment(id: int, replies: seq<Reply>)

  /** `replies.some(r => r.id === id)`. */
  function SomeReply(replies: seq<Reply>, id: int): (r: bool)
    ensures r <==> exists k :: 0 <= k < |replies| && replies[k].id == id
  {
    if |replies| == 0 then false
    else
      var rest := SomeReply(replies[1..], id);
      assert forall k :: 1 <= k < |replies| ==> replies[k] == replies[1..][k - 1];
      replies[0].id == id || rest
  }

  /** The id is a thread of the list or a reply in one. */
  predicate InList(comments: seq<Comment>, id: int) {
    exists i :: 0 <= i < |comments| && (comments[i].id == id
      || exists k :: 0 <= k < |comments[i].replies| && comments[i].replies[k].id == id)
  }

  /** The guard of updateComment, which calls the API only when it holds. */
  function IsInList(comments: seq<Comment>, id: int): (r: bool)
    ensures r <==> InList(comments, id)
  {
    if |comments| == 0 then false
    else
      var rest := IsInList(comments[1..], id);
      assert forall i :: 1 <= i < |comments| ==> comments[i] == comments[1..][i - 1];
      comments[0].id == id || SomeReply(comments[0].replies, id) || rest
  }

  /** The component's pagination state; `totalComments` is countAllComments of the current
      `comments` prop, and `tabChanges` counts the calls of the `handleTabChange` prop. */
  class CommentsListComponent {
    var totalComments: nat
    var commentsToRender: int
    var sending: bool
    var animation: bool
    var tabChanges: nat

    ghost predicate Valid()
      reads this
    {
      0 <= commentsToRender
    }

    constructor(total: nat)
      ensures Valid()
      ensures totalComments == total && commentsToRender == Min(CommentsPerPack, total)
      ensures !sending && !animation && tabChanges == 0
    {
      totalComments := total;
      commentsToRender := Min(CommentsPerPack, total);
      sending := false;
      animation := false;
      tabChanges := 0;
    }

    /** New `comments` props. */
    method ReceiveComments(total: nat)
      modifies this
      ensures totalComments == total
      ensures commentsToRender == old(commentsToRender) && sending == old(sending) && animation == old(animation)
      ensures tabChanges == old(tabChanges)
    {
      totalComments := total;
    }

    /** renderPackOfComments: `packSize` more threads, but not more than there are. */
    method RenderPackOfComments(packSize: int)
      requires Valid() && packSize >= 0
      modifies this
      ensures Valid()
      ensures commentsToRender == Min(old(commentsToRender) + packSize, totalComments)
      ensures commentsToRender <= totalComments
      ensures old(commentsToRender) <= totalComments ==> old(commentsToRender) <= commentsToRender
      ensures totalComments == old(totalComments) && sending == old(sending) && animation == old(animation)
      ensures tabChanges == old(tabChanges)
    {
      commentsToRender := Min(commentsToRender + packSize, totalComments);
    }

    /** handleScrollToBottom, given the page's bottom edge and the window's height. */
    method HandleScrollToBottom(windowRelativeBottom: real, clientHeight: real, scrollDistance: real)
      requires Valid()
      modifies this
      ensures Valid()
      ensures commentsToRender == (if windowRelativeBottom < clientHeight + scrollDistance && old(commentsToRender) < totalComments
        then Min(old(commentsToRender) + CommentsPerPack, totalComments) else old(commentsToRender))
      ensures old(commentsToRender) <= commentsToRender
      ensures totalComments == old(totalComments) && sending == old(sending) && animation == old(animation)
      ensures tabChanges == old(tabChanges)
    {
      if windowRelativeBottom < clientHeight + scrollDistance && commentsToRender < totalComments {
        RenderPackOfComments(CommentsPerPack);
      }
    }

    /** handleScrollToCommentByHashFormUrl: `hashId` is the id parsed from the address's hash
        and `indexOfComment` its thread's index in the list (negative when absent);
        `slideContainsComment` is the `isSlideContainsComment` prop at that id. */
    method HandleScrollToCommentByHash(hashId: int, indexOfComment: int, slideContainsComment: bool)
      requires Valid()
      modifies this
      ensures Valid()
      ensures hashId >= 0 && indexOfComment >= old(commentsToRender) ==>
        commentsToRender == Min(indexOfComment + 1 + AdditionalCommentsCountOnScroll, totalComments)
      ensures !(hashId >= 0 && indexOfComment >= old(commentsToRender)) ==> commentsToRender == old(commentsToRender)
      ensures hashId >= 0 && 0 <= indexOfComment < totalComments ==> indexOfComment < commentsToRender
      ensures tabChanges == old(tabChanges) + (if hashId >= 0 && indexOfComment < 0 && slideContainsComment then 1 else 0)
      ensures totalComments == old(totalComments) && sending == old(sending) && animation == old(animation)
    {
      if hashId >= 0 {
        if indexOfComment >= commentsToRender {
          var indexAsCount := indexOfComment + 1;
          RenderPackOfComments(indexAsCount - commentsToRender + AdditionalCommentsCountOnScroll);
        } else if indexOfComment < 0 && slideContainsComment {
          tabChanges := tabChanges + 1;
        }
      }
    }

    /** handleAddComment, with the outcome of the API call as a parameter: one more thread is
        rendered after a success, and `sending` is cleared either way. */
    method HandleAddComment(added: bool)
      requires Valid()
      modifies this
      ensures Valid()
      ensures commentsToRender == old(commentsToRender) + (if added then 1 else 0)
      ensures !sending && animation
      ensures totalComments == old(totalComments) && tabChanges == old(tabChanges)
    {
      var before := commentsToRender;
      sending := true;
      animation := true;
      if added {
        commentsToRender := before + 1;
      }
      sending := false;
    }
  }
}
