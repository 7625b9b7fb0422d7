/** The `post_save` handler for Follow rows (app/signals/follow_signals.py):
    a guard on the saved row, the recipient, the message, and delivery
    through the connection registry. `created` is what Tortoise passes for
    the save; `followerName` and `followingId` are what `fetch_related`
    loads. */
module FollowSignals {
  import opened Base
  import opened WebSocketManager

  const FOLLOW_SUFFIX := "님이 팔로우 하셨습니다."

  /** The notification a Follow save produces, if any. */
  function FollowNotice(created: bool, isFollowing: bool, followerName: string, followingId: int): Option<Notice>
  {
    if created || isFollowing then Some(Notice(followingId, followerName + FOLLOW_SUFFIX)) else None
  }

  /** A notification is attempted exactly when the save created the row or
      the row is active; it goes to the followed user and names the
      follower. */
  lemma FollowNoticeShape(created: bool, isFollowing: bool, followerName: string, followingId: int)
    ensures FollowNotice(created, isFollowing, followerName, followingId).Some? <==> created || isFollowing
    ensures var n := FollowNotice(created, isFollowing, followerName, followingId);
            n.Some? ==> n.value.recipient == followingId &&
                        n.value.message[..|followerName|] == followerName &&
                        n.value.message[|followerName|..] == FOLLOW_SUFFIX
  {
  }

  /** Saving a deactivated follow that already existed sends nothing. */
  lemma DeactivatedSaveSilent(followerName: string, followingId: int)
    ensures FollowNotice(false, false, followerName, followingId) == None
  {
  }

  /** `follow_signals`: hands the notice, if any, to `send_notification`.
      `fails` says whether the transport raises. The registry itself never
      changes; only a connected recipient is sent a frame. */
  method FollowSignal<H(==)>(manager: ConnectionManager<H>, created: bool, isFollowing: bool,
                             followerName: string, followingId: int, fails: bool)
    returns (raised: bool)
    modifies manager
    ensures manager.keys == old(manager.keys) && manager.conns == old(manager.conns)
    ensures !(created || isFollowing) ==> manager.wire == old(manager.wire) && !raised
    ensures created || isFollowing ==>
      if followingId in manager.conns then
        raised == fails &&
        manager.wire == old(manager.wire) +
          (if fails then [] else [Sent(manager.conns[followingId], Notification(followerName + FOLLOW_SUFFIX))])
      else manager.wire == old(manager.wire) && !raised
  {
    raised := false;
    var notice := FollowNotice(created, isFollowing, followerName, followingId);
    if notice.Some? {
      raised := manager.SendNotification(notice.value.recipient, notice.value.message, fails);
    }
  }
}
