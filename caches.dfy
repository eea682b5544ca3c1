/**
  CacheService over the application's CacheManager: clearing every cache,
  clearing one cache by name, and dropping one user's entries. A cache is
  a map from key to cached value. CacheManager.getCache may answer null
  for a name it does not know, in which case Objects.requireNonNull throws;
  a manager that creates caches on demand (createsMissing) answers a new
  empty cache instead.
 */
module Caches {
  import opened Wrappers

  type Caches = map<string, map<string, string>>

  const UserRequests := "userRequests"
  const UnreadMessages := "unreadMessages"
  const ConversationPartners := "conversationPartners"
  const Conversations := "conversations"

  datatype CacheOp = Evict(cache: string, key: string) | Clear(cache: string)

  /** The state after a run of operations, and whether it ran to the end
      (false: a NullPointerException stopped it). */
  datatype RunResult = RunResult(caches: Caches, completed: bool)

  /** getCache(name) followed by requireNonNull: the cache map once the
      name resolves, or None when it resolves to null. */
  function Resolve(c: Caches, name: string, createsMissing: bool): (r: Option<Caches>)
    ensures r.Some? <==> name in c || createsMissing
    ensures r.Some? ==> forall n :: n in r.value <==> n in c || n == name
    ensures r.Some? ==> forall n | n in c :: r.value[n] == c[n]
    ensures r.Some? && name !in c ==> r.value[name] == map[]
  {
    if name in c then Some(c)
    else if createsMissing then Some(c[name := map[]])
    else None
  }

  /** evict(key) drops one entry; clear() drops them all. No other cache
      changes. */
  function Apply(c: Caches, op: CacheOp, createsMissing: bool): (r: Option<Caches>)
    ensures r.Some? <==> op.cache in c || createsMissing
    ensures r.Some? ==> forall n :: n in r.value <==> n in c || n == op.cache
    ensures r.Some? ==> forall n | n in c && n != op.cache :: r.value[n] == c[n]
    ensures r.Some? && op.Clear? ==> r.value[op.cache] == map[]
    ensures r.Some? && op.Evict? ==>
      r.value[op.cache] == (if op.cache in c then c[op.cache] - {op.key} else map[])
  {
    var resolved := Resolve(c, op.cache, createsMissing);
    if resolved.None? then None
    else
      var s := resolved.value;
      match op
      case Evict(name, key) => Some(s[name := s[name] - {key}])
      case Clear(name) => Some(s[name := map[]])
  }

  /** clearCache twice is clearCache once: the second call finds the name
      resolved and the cache already empty. */
  lemma ClearCacheIdempotent(c: Caches, name: string, createsMissing: bool)
    requires Apply(c, Clear(name), createsMissing).Some?
    ensures var once := Apply(c, Clear(name), createsMissing).value;
      Apply(once, Clear(name), createsMissing) == Some(once)
  {
    var once := Apply(c, Clear(name), createsMissing).value;
    assert once[name := map[]] == once;
  }

  /** The four cache names are pairwise different (their lengths differ). */
  lemma CacheNamesDistinct()
    ensures UserRequests != UnreadMessages && UserRequests != ConversationPartners
    ensures UserRequests != Conversations && UnreadMessages != ConversationPartners
    ensures UnreadMessages != Conversations && ConversationPartners != Conversations
  {
    assert |UserRequests| == 12 && |UnreadMessages| == 14;
    assert |ConversationPartners| == 20 && |Conversations| == 13;
  }

  /**
    clearUserCaches: the user's key is evicted from userRequests,
    unreadMessages and conversationPartners, then conversations is cleared
    whole (its keys are composite). The first cache that resolves to null
    stops the run, and the evictions before it stay done.
   */
  function UserCachesCleared(c: Caches, userId: string, createsMissing: bool): RunResult {
    var s1 := Apply(c, Evict(UserRequests, userId), createsMissing);
    if s1.None? then RunResult(c, false)
    else
      var s2 := Apply(s1.value, Evict(UnreadMessages, userId), createsMissing);
      if s2.None? then RunResult(s1.value, false)
      else
        var s3 := Apply(s2.value, Evict(ConversationPartners, userId), createsMissing);
        if s3.None? then RunResult(s2.value, false)
        else
          var s4 := Apply(s3.value, Clear(Conversations), createsMissing);
          if s4.None? then RunResult(s3.value, false)
          else RunResult(s4.value, true)
  }

  predicate UserCachesResolve(c: Caches, createsMissing: bool) {
    createsMissing
    || (UserRequests in c && UnreadMessages in c && ConversationPartners in c && Conversations in c)
  }

  /** A cache after evict(key), for a name that resolved (a created cache
      is empty). */
  function Evicted(c: Caches, name: string, key: string): map<string, string> {
    if name in c then c[name] - {key} else map[]
  }

  predicate IsUserCache(n: string) {
    n == UserRequests || n == UnreadMessages || n == ConversationPartners || n == Conversations
  }

  /**
    When the four caches resolve, clearUserCaches completes: the user's
    key is gone from the three per-user caches and nothing else is taken
    from them, conversations is empty, and every other cache is as it
    was. When one of them does not resolve, it fails.
   */
  lemma {:induction false} UserCachesEffect(c: Caches, userId: string, createsMissing: bool)
    ensures var r := UserCachesCleared(c, userId, createsMissing);
      && (r.completed <==> UserCachesResolve(c, createsMissing))
      && (r.completed ==>
            && (forall n :: n in r.caches <==> n in c || IsUserCache(n))
            && r.caches[UserRequests] == Evicted(c, UserRequests, userId)
            && r.caches[UnreadMessages] == Evicted(c, UnreadMessages, userId)
            && r.caches[ConversationPartners] == Evicted(c, ConversationPartners, userId)
            && r.caches[Conversations] == map[]
            && (forall n | n in c && !IsUserCache(n) :: r.caches[n] == c[n]))
  {
    CacheNamesDistinct();
    var s1 := Apply(c, Evict(UserRequests, userId), createsMissing);
    if s1.None? { return; }
    var s2 := Apply(s1.value, Evict(UnreadMessages, userId), createsMissing);
    if s2.None? { return; }
    var s3 := Apply(s2.value, Evict(ConversationPartners, userId), createsMissing);
    if s3.None? { return; }
    var s4 := Apply(s3.value, Clear(Conversations), createsMissing);
    if s4.None? { return; }
    assert s4.value[UserRequests] == s3.value[UserRequests] == s2.value[UserRequests] == s1.value[UserRequests];
    assert s4.value[UnreadMessages] == s3.value[UnreadMessages] == s2.value[UnreadMessages];
    assert s4.value[ConversationPartners] == s3.value[ConversationPartners];
    if UnreadMessages in c {
      assert s1.value[UnreadMessages] == c[UnreadMessages];
    }
    if ConversationPartners in c {
      assert s2.value[ConversationPartners] == s1.value[ConversationPartners] == c[ConversationPartners];
    }
  }

  /**
    When a cache does not resolve, clearUserCaches stops there: the caches
    evicted before it keep the eviction, the rest (conversations included)
    are untouched, and no cache is created.
   */
  lemma {:induction false} UserCachesStopAtMissing(c: Caches, userId: string, createsMissing: bool)
    requires !UserCachesResolve(c, createsMissing)
    ensures var r := UserCachesCleared(c, userId, createsMissing);
      && !r.completed
      && r.caches.Keys == c.Keys
      && (UserRequests in c ==> r.caches[UserRequests] == c[UserRequests] - {userId})
      && (UnreadMessages in c ==>
            r.caches[UnreadMessages] ==
              if UserRequests in c then c[UnreadMessages] - {userId} else c[UnreadMessages])
      && (ConversationPartners in c ==>
            r.caches[ConversationPartners] ==
              if UserRequests in c && UnreadMessages in c then c[ConversationPartners] - {userId}
              else c[ConversationPartners])
      && (Conversations in c ==> r.caches[Conversations] == c[Conversations])
      && (forall n | n in c && !IsUserCache(n) :: r.caches[n] == c[n])
  {
    CacheNamesDistinct();
    var s1 := Apply(c, Evict(UserRequests, userId), createsMissing);
    if s1.None? { return; }
    var s2 := Apply(s1.value, Evict(UnreadMessages, userId), createsMissing);
    if s2.None? { return; }
    var s3 := Apply(s2.value, Evict(ConversationPartners, userId), createsMissing);
    if s3.None? { return; }
    assert Conversations !in c;
    assert s3.value[UserRequests] == s2.value[UserRequests] == s1.value[UserRequests];
    assert s3.value[UnreadMessages] == s2.value[UnreadMessages];
  }

  /** A cache already evicted of a key is left as it is by a second
      eviction of that key. */
  lemma EvictedAgain(c: Caches, o: Caches, name: string, key: string)
    requires name in o && o[name] == Evicted(c, name, key)
    ensures Evicted(o, name, key) == o[name]
  {
    if name in c {
      EvictTwice(c[name], key);
    }
  }

  /** Evicting a key twice is evicting it once. */
  lemma EvictTwice(m: map<string, string>, key: string)
    ensures (m - {key}) - {key} == m - {key}
  {
  }

  /** Running clearUserCaches a second time changes nothing and ends the
      same way, whether the first run completed or stopped part way. */
  lemma {:induction false} UserCachesIdempotent(c: Caches, userId: string, createsMissing: bool)
    ensures var once := UserCachesCleared(c, userId, createsMissing);
      UserCachesCleared(once.caches, userId, createsMissing) == once
  {
    if UserCachesResolve(c, createsMissing) {
      CompletedRunIdempotent(c, userId, createsMissing);
    } else {
      StoppedRunIdempotent(c, userId, createsMissing);
    }
  }

  lemma {:induction false} CompletedRunIdempotent(c: Caches, userId: string, createsMissing: bool)
    requires UserCachesResolve(c, createsMissing)
    ensures var once := UserCachesCleared(c, userId, createsMissing);
      UserCachesCleared(once.caches, userId, createsMissing) == once
  {
    var once := UserCachesCleared(c, userId, createsMissing);
    UserCachesEffect(c, userId, createsMissing);
    var o := once.caches;
    EvictedAgain(c, o, UserRequests, userId);
    EvictedAgain(c, o, UnreadMessages, userId);
    EvictedAgain(c, o, ConversationPartners, userId);
    ApplyKeeps(o, Evict(UserRequests, userId), createsMissing);
    ApplyKeeps(o, Evict(UnreadMessages, userId), createsMissing);
    ApplyKeeps(o, Evict(ConversationPartners, userId), createsMissing);
    ApplyKeeps(o, Clear(Conversations), createsMissing);
  }

  /** An operation on a cache it would not change leaves every cache as
      it is. */
  lemma ApplyKeeps(o: Caches, op: CacheOp, createsMissing: bool)
    requires op.cache in o
    requires op.Evict? ==> o[op.cache] - {op.key} == o[op.cache]
    requires op.Clear? ==> o[op.cache] == map[]
    ensures Apply(o, op, createsMissing) == Some(o)
  {
    assert o[op.cache := o[op.cache]] == o;
  }

  lemma {:induction false} StoppedRunIdempotent(c: Caches, userId: string, createsMissing: bool)
    requires !UserCachesResolve(c, createsMissing)
    ensures var once := UserCachesCleared(c, userId, createsMissing);
      UserCachesCleared(once.caches, userId, createsMissing) == once
  {
    var once := UserCachesCleared(c, userId, createsMissing);
    UserCachesStopAtMissing(c, userId, createsMissing);
    var o := once.caches;
    if UserRequests in c {
      EvictTwice(c[UserRequests], userId);
      ApplyKeeps(o, Evict(UserRequests, userId), createsMissing);
      if UnreadMessages in c {
        EvictTwice(c[UnreadMessages], userId);
        ApplyKeeps(o, Evict(UnreadMessages, userId), createsMissing);
        if ConversationPartners in c {
          EvictTwice(c[ConversationPartners], userId);
          ApplyKeeps(o, Evict(ConversationPartners, userId), createsMissing);
        }
      }
    }
  }

  /** clearAllCaches: every cache the manager names is emptied. */
  function AllCleared(c: Caches): (r: Caches)
    ensures r.Keys == c.Keys
    ensures forall n | n in r :: r[n] == map[]
  {
    map n | n in c :: map[]
  }

  datatype Completion = Done | NullPointer

  class CacheManager {
    var caches: Caches
    /** Whether getCache creates a cache for an unknown name. */
    const createsMissing: bool

    constructor (initial: Caches, createsMissing: bool)
      ensures caches == initial && this.createsMissing == createsMissing
    {
      caches := initial;
      this.createsMissing := createsMissing;
    }

    /** One getCache(name), requireNonNull, then evict or clear. */
    method Perform(op: CacheOp) returns (ok: bool)
      modifies this
      ensures ok == Apply(old(caches), op, createsMissing).Some?
      ensures caches == if ok then Apply(old(caches), op, createsMissing).value else old(caches)
    {
      var next := Apply(caches, op, createsMissing);
      ok := next.Some?;
      if ok {
        caches := next.value;
      }
    }

    /** clearCache(name). */
    method ClearCache(name: string) returns (outcome: Completion)
      modifies this
      ensures outcome == Done <==> Apply(old(caches), Clear(name), createsMissing).Some?
      ensures caches == if outcome == Done then Apply(old(caches), Clear(name), createsMissing).value else old(caches)
    {
      var ok := Perform(Clear(name));
      outcome := if ok then Done else NullPointer;
    }

    /** clearUserCaches(userId): four statements, the first null stopping the rest. */
    method ClearUserCaches(userId: string) returns (outcome: Completion)
      modifies this
      ensures RunResult(caches, outcome == Done) == UserCachesCleared(old(caches), userId, createsMissing)
    {
      outcome := NullPointer;
      var ok := Perform(Evict(UserRequests, userId));
      if !ok { return; }
      ok := Perform(Evict(UnreadMessages, userId));
      if !ok { return; }
      ok := Perform(Evict(ConversationPartners, userId));
      if !ok { return; }
      ok := Perform(Clear(Conversations));
      if !ok { return; }
      outcome := Done;
    }

    /** clearAllCaches: every listed name resolves to its cache, which is
        cleared; the order of the names does not matter. */
    method ClearAllCaches()
      modifies this
      ensures caches == AllCleared(old(caches))
    {
      var pending := caches.Keys;
      while pending != {}
        invariant pending <= caches.Keys && caches.Keys == old(caches).Keys
        invariant forall n | n in caches && n !in pending :: caches[n] == map[]
        invariant forall n | n in pending :: caches[n] == old(caches)[n]
        decreases pending
      {
        var name :| name in pending;
        caches := caches[name := map[]];
        pending := pending - {name};
      }
    }
  }
}
