/**
 * Conversation sessions: the key a chat is filed under (`get_conversation_key`)
 * and the two module-level maps that remember each key's backend conversation
 * and when it was last active, with the sweep that forgets idle ones
 * (`cleanup_conversations`). The clock is a parameter.
 */
module Sessions {
  import opened Options
  import opened Text

  /** `CONVERSATION_EXPIRE_SECONDS`: thirty minutes. */
  const ExpireSeconds: real := 30.0 * 60.0

  /** Who a key belongs to: a whole group chat, or one user in private chat. */
  datatype Scope = Group(groupId: string) | User(userId: string)

  const GroupPrefix: string := "group:"
  const UserPrefix: string := "user:"

  /**
   * `get_conversation_key`: a group message is filed under its group, so everyone
   * in a group shares one conversation; anything else under the user.
   */
  function ConversationKey(messageType: string, userId: string, groupId: string): (key: string)
    ensures ScopeOf(key) == Some(if messageType == "group" then Group(groupId) else User(userId))
  {
    if messageType == "group" then
      assert StartsWith(GroupPrefix + groupId, GroupPrefix);
      GroupPrefix + groupId
    else
      assert StartsWith(UserPrefix + userId, UserPrefix);
      assert (UserPrefix + userId)[0] == 'u';
      UserPrefix + userId
  }

  /** Reads a key back: the scope it was made for, or none for a string no key has. */
  function ScopeOf(key: string): Option<Scope>
  {
    if StartsWith(key, GroupPrefix) then Some(Group(key[|GroupPrefix|..]))
    else if StartsWith(key, UserPrefix) then Some(User(key[|UserPrefix|..]))
    else None
  }

  /** Everyone in a group shares the group's key, whoever sends. */
  lemma {:induction false} GroupKeyIgnoresUser(userA: string, userB: string, groupId: string)
    ensures ConversationKey("group", userA, groupId) == ConversationKey("group", userB, groupId)
    ensures ScopeOf(ConversationKey("group", userA, groupId)) == Some(Group(groupId))
  {
  }

  /** A group's key is never a user's key, whatever the ids. */
  lemma {:induction false} GroupAndUserKeysDiffer(messageType: string, userA: string, groupId: string, userB: string)
    requires messageType != "group"
    ensures ConversationKey("group", userA, groupId) != ConversationKey(messageType, userB, groupId)
  {
    var g := ConversationKey("group", userA, groupId);
    var u := ConversationKey(messageType, userB, groupId);
    assert ScopeOf(g) != ScopeOf(u);
  }

  /** Two chats share a key exactly when they are the same group, or the same user outside groups. */
  lemma {:induction false} KeysIdentifyScope(typeA: string, userA: string, groupA: string,
                                             typeB: string, userB: string, groupB: string)
    ensures ConversationKey(typeA, userA, groupA) == ConversationKey(typeB, userB, groupB) <==>
      (if typeA == "group" then Group(groupA) else User(userA)) ==
      (if typeB == "group" then Group(groupB) else User(userB))
  {
    var a := ConversationKey(typeA, userA, groupA);
    var b := ConversationKey(typeB, userB, groupB);
    if a == b {
      assert ScopeOf(a) == ScopeOf(b);
    }
  }

  /** An entry last active at `t` has expired at `now`: strictly more than thirty minutes old. */
  predicate Expired(t: real, now: real)
  {
    now - t > ExpireSeconds
  }

  /** The keys the sweep at `now` removes: those whose last activity has expired. */
  function ExpiredKeys(lastActive: map<string, real>, now: real): set<string>
  {
    set k | k in lastActive && Expired(lastActive[k], now)
  }

  /** A map without the given keys, every other entry as it was. */
  function Without<V>(m: map<string, V>, gone: set<string>): (r: map<string, V>)
    ensures forall k :: k in r <==> k in m && k !in gone
    ensures forall k :: k in r ==> r[k] == m[k]
  {
    map k | k in m && k !in gone :: m[k]
  }

  /**
   * The sweep at `now` keeps an activity entry exactly when it is at most thirty
   * minutes old, and keeps it unchanged.
   */
  lemma {:induction false} SweepKeepsExactlyFresh(lastActive: map<string, real>, now: real, k: string)
    ensures var swept := Without(lastActive, ExpiredKeys(lastActive, now));
      (k in swept <==> k in lastActive && now - lastActive[k] <= ExpireSeconds) &&
      (k in swept ==> swept[k] == lastActive[k])
  {
  }

  /** The comparison is strict: an entry exactly thirty minutes old survives, one a second older does not. */
  lemma {:induction false} SweepBoundary(lastActive: map<string, real>, k: string, t: real)
    requires k in lastActive && lastActive[k] == t
    ensures k in Without(lastActive, ExpiredKeys(lastActive, t + 1800.0))
    ensures k !in Without(lastActive, ExpiredKeys(lastActive, t + 1801.0))
  {
  }

  /** Sweeping twice at the same time removes nothing more. */
  lemma {:induction false} SweepIdempotent(lastActive: map<string, real>, now: real)
    ensures var once := Without(lastActive, ExpiredKeys(lastActive, now));
      Without(once, ExpiredKeys(once, now)) == once
  {
    var once := Without(lastActive, ExpiredKeys(lastActive, now));
    assert ExpiredKeys(once, now) == {};
  }

  /** A later sweep keeps no entry an earlier sweep removed. */
  lemma {:induction false} SweepMonotone(lastActive: map<string, real>, earlier: real, later: real)
    requires earlier <= later
    ensures Without(lastActive, ExpiredKeys(lastActive, later)).Keys <=
            Without(lastActive, ExpiredKeys(lastActive, earlier)).Keys
  {
  }

  /**
   * `conversation_cache` and `conversation_last_active`. Every write sets both
   * for the same key and every removal removes both, so they hold the same keys.
   */
  class SessionStore {
    var cache: map<string, string>
    var lastActive: map<string, real>

    ghost predicate Valid()
      reads this
    {
      cache.Keys == lastActive.Keys
    }

    /** Both maps start empty when the process starts. */
    constructor ()
      ensures Valid() && cache == map[] && lastActive == map[]
    {
      cache := map[];
      lastActive := map[];
    }

    /** `conversation_cache.get(key)`: the backend conversation this key continues, if any. */
    function Lookup(key: string): (id: Option<string>)
      reads this
      ensures id.Some? <==> key in cache
      ensures id.Some? ==> id.value == cache[key]
    {
      if key in cache then Some(cache[key]) else None
    }

    /** Records that `key` continues backend conversation `id`, active at `now`. */
    method Touch(key: string, id: string, now: real)
      requires Valid()
      modifies this
      ensures Valid()
      ensures cache == old(cache)[key := id]
      ensures lastActive == old(lastActive)[key := now]
    {
      cache := cache[key := id];
      lastActive := lastActive[key := now];
    }

    /**
     * `cleanup_conversations()` at time `now`: collects the expired keys, then pops
     * each from both maps. Keys only in the conversation map are left alone.
     */
    method Cleanup(now: real)
      modifies this
      ensures cache == Without(old(cache), ExpiredKeys(old(lastActive), now))
      ensures lastActive == Without(old(lastActive), ExpiredKeys(old(lastActive), now))
      ensures old(Valid()) ==> Valid()
    {
      var expired := ExpiredKeys(lastActive, now);
      var pending := expired;
      while pending != {}
        invariant pending <= expired
        invariant cache == Without(old(cache), expired - pending)
        invariant lastActive == Without(old(lastActive), expired - pending)
        decreases |pending|
      {
        var k :| k in pending;
        cache := cache - {k};
        lastActive := lastActive - {k};
        pending := pending - {k};
      }
    }
  }
}
