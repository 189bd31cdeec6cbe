/** The event-manager permission consulted by event creation and cancellation. */
module Permissions {
  import opened Models

  /**
   * True exactly when the caller holds the event-manager role: every user
   * who keeps the role given at registration is refused.
   */
  predicate IsEventManager(caller: User)
    ensures IsEventManager(caller) <==> caller.role != DEFAULT_ROLE
  {
    caller.role == EventManager
  }

  /**
   * The permission tells the two roles apart whoever the user is: with the
   * default role a user is refused, and the same user is admitted once
   * made a manager.
   */
  lemma RoleDecidesPermission(id: UserId)
    ensures !IsEventManager(User(id, DEFAULT_ROLE))
    ensures IsEventManager(User(id, EventManager))
  {
  }

  /** Only the role is looked at: two callers with the same role get the same answer. */
  lemma PermissionIgnoresIdentity(a: User, b: User)
    requires a.role == b.role
    ensures IsEventManager(a) == IsEventManager(b)
  {
  }
}
