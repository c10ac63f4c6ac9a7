/** The capped store of push subscriptions (`integrations/push-file-store.ts`), one serialized call at a time. */
module PushStore {
  import opened Wrappers
  import opened MailLines

  /** A subscription: its endpoint, and everything else of it. */
  datatype Subscription = Subscription(endpoint: string, rest: string)

  datatype Document = Document(users: map<string, seq<Subscription>>, state: map<string, string>)

  // ---- One user's list

  /** The list without one endpoint. */
  function Without(list: seq<Subscription>, endpoint: string): seq<Subscription> {
    if list == [] then []
    else (if list[0].endpoint == endpoint then [] else [list[0]]) + Without(list[1..], endpoint)
  }

  /** `list.slice(-n)`. */
  function Newest(list: seq<Subscription>, n: nat): seq<Subscription> {
    if |list| <= n then list else list[|list| - n..]
  }

  function Saved(list: seq<Subscription>, subscription: Subscription, maxPerUser: nat): seq<Subscription> {
    Newest(Without(list, subscription.endpoint) + [subscription], maxPerUser)
  }

  predicate AreDistinct(list: seq<Subscription>) {
    forall i, j :: 0 <= i < j < |list| ==> list[i].endpoint != list[j].endpoint
  }

  predicate HasEndpoint(list: seq<Subscription>, endpoint: string) {
    exists i :: 0 <= i < |list| && list[i].endpoint == endpoint
  }

  lemma {:induction false} WithoutIs(list: seq<Subscription>, endpoint: string)
    ensures !HasEndpoint(Without(list, endpoint), endpoint)
    ensures forall other :: other != endpoint ==>
      (HasEndpoint(Without(list, endpoint), other) <==> HasEndpoint(list, other))
    ensures |Without(list, endpoint)| <= |list|
    ensures AreDistinct(list) ==> AreDistinct(Without(list, endpoint))
  {
    if list != [] {
      var rest := Without(list[1..], endpoint);
      WithoutIs(list[1..], endpoint);
      HasFirst(list[0], list[1..]);
      HasFirst(list[0], rest);
      assert [list[0]] + list[1..] == list;
      assert [] + rest == rest;
      if AreDistinct(list) {
        assert !HasEndpoint(list[1..], list[0].endpoint);
        if list[0].endpoint != endpoint {
          DistinctFirst(list[0], rest);
        }
      }
    }
  }

  lemma {:induction false} HasFirst(first: Subscription, rest: seq<Subscription>)
    ensures forall e :: HasEndpoint([first] + rest, e) <==> first.endpoint == e || HasEndpoint(rest, e)
  {
    var all := [first] + rest;
    assert all[0] == first;
    forall e
      ensures HasEndpoint(all, e) <==> first.endpoint == e || HasEndpoint(rest, e)
    {
      if HasEndpoint(rest, e) {
        var i :| 0 <= i < |rest| && rest[i].endpoint == e;
        assert all[i + 1] == rest[i];
      }
      if HasEndpoint(all, e) && first.endpoint != e {
        var i :| 0 <= i < |all| && all[i].endpoint == e;
        assert rest[i - 1] == all[i];
      }
    }
  }

  lemma {:induction false} DistinctFirst(first: Subscription, rest: seq<Subscription>)
    requires AreDistinct(rest) && !HasEndpoint(rest, first.endpoint)
    ensures AreDistinct([first] + rest)
  {
  }

  lemma {:induction false} DistinctLast(list: seq<Subscription>, last: Subscription)
    requires AreDistinct(list) && !HasEndpoint(list, last.endpoint)
    ensures AreDistinct(list + [last])
  {
  }

  /** A user's list holds every endpoint once and no more than the cap. */
  ghost predicate IsList(list: seq<Subscription>, maxPerUser: nat) {
    AreDistinct(list) && |list| <= maxPerUser
  }

  lemma {:induction false} SavedIsList(list: seq<Subscription>, subscription: Subscription, maxPerUser: nat)
    requires IsList(list, maxPerUser) && maxPerUser >= 1
    ensures IsList(Saved(list, subscription, maxPerUser), maxPerUser)
    ensures var saved := Saved(list, subscription, maxPerUser); saved != [] && saved[|saved| - 1] == subscription
  {
    WithoutIs(list, subscription.endpoint);
    DistinctLast(Without(list, subscription.endpoint), subscription);
  }

  lemma {:induction false} DeletedIsList(list: seq<Subscription>, endpoint: string, maxPerUser: nat)
    requires IsList(list, maxPerUser)
    ensures IsList(Without(list, endpoint), maxPerUser) && !HasEndpoint(Without(list, endpoint), endpoint)
  {
    WithoutIs(list, endpoint);
  }

  // ---- Saves only

  /** Every endpoint saved, each with its last save, in the order of those saves. */
  function Latest(saves: seq<Subscription>): seq<Subscription> {
    if saves == [] then []
    else
      var last := saves[|saves| - 1];
      Without(Latest(saves[..|saves| - 1]), last.endpoint) + [last]
  }

  /** The list after saving one after the other. */
  function After(saves: seq<Subscription>, maxPerUser: nat): seq<Subscription> {
    if saves == [] then [] else Saved(After(saves[..|saves| - 1], maxPerUser), saves[|saves| - 1], maxPerUser)
  }

  lemma {:induction false} LatestIsDistinct(saves: seq<Subscription>)
    ensures AreDistinct(Latest(saves))
    ensures forall e :: HasEndpoint(Latest(saves), e) <==> HasEndpoint(saves, e)
  {
    if saves != [] {
      var front, last := saves[..|saves| - 1], saves[|saves| - 1];
      LatestIsDistinct(front);
      WithoutIs(Latest(front), last.endpoint);
      DistinctLast(Without(Latest(front), last.endpoint), last);
      HasLast(Without(Latest(front), last.endpoint), last);
      HasLast(front, last);
      assert front + [last] == saves;
    }
  }

  lemma {:induction false} HasLast(list: seq<Subscription>, last: Subscription)
    ensures forall e :: HasEndpoint(list + [last], e) <==> HasEndpoint(list, e) || last.endpoint == e
  {
    var all := list + [last];
    assert all[|list|] == last;
    forall e
      ensures HasEndpoint(all, e) <==> HasEndpoint(list, e) || last.endpoint == e
    {
      if HasEndpoint(list, e) {
        var i :| 0 <= i < |list| && list[i].endpoint == e;
        assert all[i] == list[i];
      }
    }
  }

  lemma {:induction false} WithoutAppend(a: seq<Subscription>, b: seq<Subscription>, endpoint: string)
    ensures Without(a + b, endpoint) == Without(a, endpoint) + Without(b, endpoint)
  {
    if a == [] {
      assert a + b == b;
    } else {
      WithoutAppend(a[1..], b, endpoint);
      assert (a + b)[1..] == a[1..] + b;
      Regroup(if a[0].endpoint == endpoint then [] else [a[0]], Without(a[1..], endpoint), Without(b, endpoint), []);
    }
  }

  lemma {:induction false} WithoutNone(list: seq<Subscription>, endpoint: string)
    requires !HasEndpoint(list, endpoint)
    ensures Without(list, endpoint) == list
  {
    if list != [] {
      HasFirst(list[0], list[1..]);
      assert [list[0]] + list[1..] == list;
      WithoutNone(list[1..], endpoint);
    }
  }

  lemma {:induction false} WithoutOne(list: seq<Subscription>, endpoint: string)
    requires AreDistinct(list)
    ensures |Without(list, endpoint)| == |list| - if HasEndpoint(list, endpoint) then 1 else 0
  {
    if list != [] {
      HasFirst(list[0], list[1..]);
      assert [list[0]] + list[1..] == list;
      WithoutOne(list[1..], endpoint);
      if list[0].endpoint == endpoint {
        assert !HasEndpoint(list[1..], endpoint);
      }
    }
  }

  lemma {:induction false} NewestOfEnd(a: seq<Subscription>, b: seq<Subscription>, n: nat)
    requires |b| >= n
    ensures Newest(a + b, n) == Newest(b, n)
  {
  }

  /** Dropping the oldest before a save drops nothing that the save would have kept. */
  lemma {:induction false} CapEarly(all: seq<Subscription>, x: Subscription, n: nat)
    requires AreDistinct(all) && n >= 1
    ensures Saved(Newest(all, n), x, n) == Newest(Without(all, x.endpoint) + [x], n)
  {
    if |all| > n {
      var gone, kept := all[..|all| - n], all[|all| - n..];
      assert all == gone + kept;
      WithoutAppend(gone, kept, x.endpoint);
      WithoutOne(kept, x.endpoint);
      var left := Without(kept, x.endpoint);
      Regroup(Without(gone, x.endpoint), left, [x], []);
      NewestOfEnd(Without(gone, x.endpoint), left + [x], n);
    }
  }

  /** After saves only, the list is the newest endpoints saved, each once, in the order of their last save. */
  lemma {:induction false} SavesKeepTheNewest(saves: seq<Subscription>, maxPerUser: nat)
    requires maxPerUser >= 1
    ensures After(saves, maxPerUser) == Newest(Latest(saves), maxPerUser)
  {
    if saves != [] {
      var front := saves[..|saves| - 1];
      SavesKeepTheNewest(front, maxPerUser);
      LatestIsDistinct(front);
      CapEarly(Latest(front), saves[|saves| - 1], maxPerUser);
    }
  }

  // ---- The store

  class PushFileStore {
    /** The file, once it was written. */
    var file: Option<Document>
    var sequence: nat
    const maxPerUser: nat

    constructor (maxPerUser: nat)
      requires maxPerUser >= 1
      ensures this.maxPerUser == maxPerUser && file == None && Valid()
    {
      this.maxPerUser, file, sequence := maxPerUser, None, 0;
    }

    ghost predicate Valid()
      reads this
    {
      && maxPerUser >= 1
      && forall user :: user in Content().users ==>
        Content().users[user] != [] && IsList(Content().users[user], maxPerUser)
    }

    function Content(): Document
      reads this
    {
      match file case None => Document(map[], map[]) case Some(document) => document
    }

    function ListByUser(user: string): seq<Subscription>
      reads this
    {
      if user in Content().users then Content().users[user] else []
    }

    method Write(document: Document)
      modifies this
      ensures file == Some(document) && sequence == old(sequence) + 1
    {
      file, sequence := Some(document), sequence + 1;
    }

    method Save(user: string, subscription: Subscription)
      requires Valid()
      modifies this
      ensures Valid() && ListByUser(user) == Saved(old(ListByUser(user)), subscription, maxPerUser)
      ensures forall other :: other != user ==> ListByUser(other) == old(ListByUser(other))
      ensures Content().state == old(Content().state)
    {
      var document := Content();
      var kept := Without(ListByUser(user), subscription.endpoint) + [subscription];
      SavedIsList(ListByUser(user), subscription, maxPerUser);
      Write(document.(users := document.users[user := Newest(kept, maxPerUser)]));
    }

    /** Any saves for one user who has none, with saves for others between them. */
    method SaveAll(user: string, saves: seq<Subscription>)
      requires Valid() && ListByUser(user) == []
      modifies this
      ensures Valid() && ListByUser(user) == Newest(Latest(saves), maxPerUser)
    {
      for i := 0 to |saves|
        invariant Valid() && ListByUser(user) == Newest(Latest(saves[..i]), maxPerUser)
      {
        var other: string, another: Subscription := *, *;
        if other != user {
          Save(other, another);
        }
        assert saves[..i + 1] == saves[..i] + [saves[i]];
        SavesKeepTheNewest(saves[..i], maxPerUser);
        SavesKeepTheNewest(saves[..i + 1], maxPerUser);
        Save(user, saves[i]);
      }
      assert saves[..|saves|] == saves;
    }

    method DeleteByEndpoint(user: string, endpoint: string)
      requires Valid()
      modifies this
      ensures Valid() && ListByUser(user) == Without(old(ListByUser(user)), endpoint)
      ensures !HasEndpoint(ListByUser(user), endpoint)
      ensures forall other :: other != user ==> ListByUser(other) == old(ListByUser(other))
      ensures Content().state == old(Content().state)
      ensures !old(HasEndpoint(ListByUser(user), endpoint)) ==> file == old(file) && sequence == old(sequence)
    {
      var document := Content();
      var stored := ListByUser(user);
      var kept := Without(stored, endpoint);
      DeletedIsList(stored, endpoint, maxPerUser);
      WithoutOne(stored, endpoint);
      if |kept| == |stored| {
        WithoutNone(stored, endpoint);
        return;
      }
      if kept == [] {
        Write(document.(users := document.users - {user}));
      } else {
        Write(document.(users := document.users[user := kept]));
      }
    }

    method SaveState(name: string, value: string)
      requires Valid()
      modifies this
      ensures Valid() && Content() == old(Content()).(state := old(Content()).state[name := value])
    {
      var document := Content();
      Write(document.(state := document.state[name := value]));
    }

    /** Any sequence of calls on a store that starts without a file. */
    method AnyRun(calls: nat)
      requires Valid() && file == None
      modifies this
      ensures Valid() && forall user :: IsList(ListByUser(user), maxPerUser)
    {
      for call := 0 to calls
        invariant Valid()
      {
        var user: string, name: string, subscription: Subscription, deletes: bool, saves: bool := *, *, *, *, *;
        if deletes {
          DeleteByEndpoint(user, name);
        } else if saves {
          Save(user, subscription);
        } else {
          SaveState(name, user);
        }
      }
    }
  }
}
