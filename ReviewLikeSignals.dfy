/** The `post_save` handler for ReviewLike rows
    (app/signals/review_like_signals.py): a guard on the saved row, the
    review's author as recipient, the liker's name in the message, and
    delivery through the connection registry. `created` is what Tortoise
    passes for the save; `likerName` and `reviewAuthorId` are what
    `fetch_related` loads. */
module ReviewLikeSignals {
  import opened Base
  import opened WebSocketManager

  const REVIEW_LIKE_SUFFIX := "님이 내 리뷰에 좋아요를 눌렀습니다!"

  /** The notification a ReviewLike save produces, if any. */
  function ReviewLikeNotice(created: bool, isLiked: bool, likerName: string, reviewAuthorId: int): Option<Notice>
  {
    if created || isLiked then Some(Notice(reviewAuthorId, likerName + REVIEW_LIKE_SUFFIX)) else None
  }

  /** A notification is attempted exactly when the like row was created or
      is active; it goes to the review's author and names the liker. */
  lemma ReviewLikeNoticeShape(created: bool, isLiked: bool, likerName: string, reviewAuthorId: int)
    ensures ReviewLikeNotice(created, isLiked, likerName, reviewAuthorId).Some? <==> created || isLiked
    ensures var n := ReviewLikeNotice(created, isLiked, likerName, reviewAuthorId);
            n.Some? ==> n.value.recipient == reviewAuthorId &&
                        n.value.message[..|likerName|] == likerName &&
                        n.value.message[|likerName|..] == REVIEW_LIKE_SUFFIX
  {
  }

  /** An unlike saved on an existing row sends nothing. */
  lemma UnlikeSaveSilent(likerName: string, reviewAuthorId: int)
    ensures ReviewLikeNotice(false, false, likerName, reviewAuthorId) == None
  {
  }

  /** No self-exclusion: an author who likes their own review is the one
      notified. */
  lemma SelfLikeNotifiesAuthor(created: bool, author: int, authorName: string)
    ensures ReviewLikeNotice(created, true, authorName, author) == Some(Notice(author, authorName + REVIEW_LIKE_SUFFIX))
  {
  }

  /** `review_like_signals`: hands the notice, if any, to
      `send_notification`. `fails` says whether the transport raises. */
  method ReviewLikeSignal<H(==)>(manager: ConnectionManager<H>, created: bool, isLiked: bool,
                                 likerName: string, reviewAuthorId: int, fails: bool)
    returns (raised: bool)
    modifies manager
    ensures manager.keys == old(manager.keys) && manager.conns == old(manager.conns)
    ensures !(created || isLiked) ==> manager.wire == old(manager.wire) && !raised
    ensures created || isLiked ==>
      if reviewAuthorId in manager.conns then
        raised == fails &&
        manager.wire == old(manager.wire) +
          (if fails then [] else [Sent(manager.conns[reviewAuthorId], Notification(likerName + REVIEW_LIKE_SUFFIX))])
      else manager.wire == old(manager.wire) && !raised
  {
    raised := false;
    var notice := ReviewLikeNotice(created, isLiked, likerName, reviewAuthorId);
    if notice.Some? {
      raised := manager.SendNotification(notice.value.recipient, notice.value.message, fails);
    }
  }
}
