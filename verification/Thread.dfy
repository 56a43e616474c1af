/** The listing that callers of GetTopics pass in, and `get -t`, which prints one topic. */
module Thread {
  import opened Bytes
  import opened Codec
  import opened Log
  import opened Store
  import opened Topics
  import Cy = Cycles
  import Db
  import O = TopicOrder
  import Q = Query
  import T = Tags

  /** The visible messages of an echo, as SelectIDS and LookupIDS give them. */
  function ListingOf(ix: Index, e: Str, user: Str): seq<Info>
    requires Sound(ix)
  {
    Q.Passing(Q.Listing(e, user, false), Q.Records(ix))
  }

  lemma InListing(ix: Index, e: Str, user: Str, x: Info)
    requires Sound(ix) && e != []
    ensures x in ListingOf(ix, e, user)
            <==> Listed(ix, x) && x.off >= 0 && x.echo == e && Q.Access(x, user)
  {
    hide Sound, Q.Passing;
    Q.PassingIs(Q.Listing(e, user, false), Q.Records(ix), x);
    Q.RecordIs(ix, x);
  }

  /** From a visible message only visible ones are met. */
  lemma {:induction false} LineVisible(ix: Index, p: Info, echo: Str, i: nat)
    requires Sound(ix) && Ends(ix, p) && p.off >= 0 && i < |Line(ix, p, echo)|
    ensures Line(ix, p, echo)[i].off >= 0
    decreases Height(ix, p)
  {
    hide Ends, Height, Sound;
    LineUnfold(ix, p, echo);
    var d := if p.echo == echo then 1 else 0;
    if i >= d {
      ParentLower(ix, p);
      LineVisible(ix, Parent(ix, p).value, echo, i - d);
    }
  }

  /** The listing of a public echo holds with every message its visible same-echo ancestors: the
      groups of a call on it are determined. */
  lemma ListingClosed(ix: Index, e: Str, user: Str)
    requires WellFormed(ix) && e != [] && (IsPrivate(e) ==> user == [])
    ensures AllListed(ix, ListingOf(ix, e, user)) && AncestorClosed(ix, ListingOf(ix, e, user))
  {
    hide Sound, Ends, Line, ListingOf, Listed, Acyclic, PlainIds;
    var mi := ListingOf(ix, e, user);
    forall j | 0 <= j < |mi| ensures Listed(ix, mi[j]) {
      assert mi[j] in mi;
      InListing(ix, e, user, mi[j]);
    }
    forall j, x | 0 <= j < |mi| && Ends(ix, mi[j]) && x in Line(ix, mi[j], mi[j].echo) ensures x in mi {
      var m := mi[j];
      assert m in mi;
      InListing(ix, e, user, m);
      var i :| 0 <= i < |Line(ix, m, m.echo)| && Line(ix, m, m.echo)[i] == x;
      LineSuffix(ix, m, m.echo, i);
      LineVisible(ix, m, m.echo, i);
      InListing(ix, e, user, x);
    }
  }

  /** The lines `get -t` prints, given the groups and the topic it worked out. */
  function ThreadOf(topics: Groups, topic: Str, id: Str): seq<Str> {
    if topic in topics && topics[topic] != [] then topics[topic] else [id]
  }

  /** x is a visible message of m's echo with the same topic. */
  ghost predicate InThread(ix: Index, m: Info, x: Str)
    requires WellFormed(ix) && Listed(ix, m)
  {
    x in ix.hash && ix.hash[x].off >= 0 && ix.hash[x].echo == m.echo
    && !Self(ix.hash[x]) && TopicAt(ix, x) == TopicAt(ix, m.id)
  }

  /** What `get -t` prints for a visible message of a public echo, whatever was cached: its topic's
      head first, then every message of the echo with the same topic, each once; a message that
      replies to itself is printed alone. */
  ghost predicate Printed(ix: Index, m: Info, out: seq<Str>)
    requires WellFormed(ix) && Listed(ix, m)
  {
    if Self(m) || IsPrivate(m.echo) then out == [m.id]
    else
      out != [] && out[0] == TopicAt(ix, m.id) && T.NoDups(out)
      && forall x :: x in out <==> InThread(ix, m, x)
  }

  lemma ExpectedIs(ix: Index, m: Info, x: Str)
    requires WellFormed(ix) && Listed(ix, m) && m.echo != [] && !IsPrivate(m.echo)
    ensures Expected(ix, ListingOf(ix, m.echo, []), TopicAt(ix, m.id), x) <==> InThread(ix, m, x)
  {
    hide Sound, Ends, Line, ListingOf, Acyclic, PlainIds, TopicOf;
    var mi, k := ListingOf(ix, m.echo, []), TopicAt(ix, m.id);
    if Expected(ix, mi, k, x) {
      var j :| 0 <= j < |mi| && Ends(ix, mi[j]) && !Self(mi[j]) && TopicOf(ix, mi[j]) == k && mi[j].id == x;
      assert mi[j] in mi;
      InListing(ix, m.echo, [], mi[j]);
    }
    if InThread(ix, m, x) {
      var y := ix.hash[x];
      HashListed(ix, x);
      InListing(ix, m.echo, [], y);
      var j :| 0 <= j < |mi| && mi[j] == y;
      ListedEnds(ix, y);
    }
  }

  lemma HashListed(ix: Index, x: Str)
    requires Sound(ix) && x in ix.hash
    ensures ix.hash[x].id == x && Listed(ix, ix.hash[x])
  {
  }

  lemma ThreadExact(ix: Index, m: Info, topics: Groups, c: Cache)
    requires WellFormed(ix) && Listed(ix, m) && m.off >= 0 && m.echo != []
    requires Grouped(ix, topics)
    requires AllFiled(ix, ListingOf(ix, m.echo, []), topics, c) && AllDue(ix, ListingOf(ix, m.echo, []), topics)
    ensures Printed(ix, m, ThreadOf(topics, TopicAt(ix, m.id), m.id))
  {
    hide WellFormed, Ends, Line, ListingOf, TopicAt, AllFiled, AllDue, AncestorClosed, Expected;
    WellFormedSound(ix);
    var mi, k := ListingOf(ix, m.echo, []), TopicAt(ix, m.id);
    ListingClosed(ix, m.echo, []);
    if IsPrivate(m.echo) {
      NothingListed(ix, m.echo);
      NothingDue(ix, topics);
    } else if Self(m) {
      SelfTopic(ix, m);
      if k in topics {
        HeadMember(ix, topics, k);
        assert false;
      }
    } else {
      forall x ensures k in topics && x in topics[k] <==> InThread(ix, m, x) {
        GroupsExact(ix, mi, topics, c, k, x);
        ExpectedIs(ix, m, x);
      }
      assert InThread(ix, m, m.id);
      assert GroupOk(ix, k, topics[k]);
    }
  }

  lemma WellFormedSound(ix: Index)
    requires WellFormed(ix)
    ensures Sound(ix)
  {
  }

  lemma SelfTopic(ix: Index, m: Info)
    requires WellFormed(ix) && Listed(ix, m) && Self(m)
    ensures TopicAt(ix, m.id) == m.id
  {
    ListedEnds(ix, m);
    LineStarts(ix, m);
  }

  lemma HeadMember(ix: Index, topics: Groups, k: Str)
    requires WellFormed(ix) && Grouped(ix, topics) && k in topics
    ensures MemberOf(ix, k, k)
  {
    hide WellFormed, TopicAt;
    assert GroupOk(ix, k, topics[k]);
    assert MemberOf(ix, topics[k][0], k);
  }

  lemma NothingListed(ix: Index, e: Str)
    requires Sound(ix) && IsPrivate(e)
    ensures ListingOf(ix, e, []) == []
  {
    hide ListingOf, Sound;
    var mi := ListingOf(ix, e, []);
    if mi != [] {
      assert mi[0] in mi;
      InListing(ix, e, [], mi[0]);
    }
  }

  lemma NothingDue(ix: Index, topics: Groups)
    requires WellFormed(ix) && AllDue(ix, [], topics) && Grouped(ix, topics)
    ensures topics == map[]
  {
    hide WellFormed, MemberOf;
    forall k ensures k !in topics {
      if k in topics {
        assert GroupOk(ix, k, topics[k]);
        NotDue(ix, k, topics[k][0]);
        assert false;
      }
    }
  }

  lemma NotDue(ix: Index, k: Str, x: Str)
    ensures !Due(ix, [], k, x)
  {
  }

  // ---------------------------------------------------------------- the command

  lemma {:induction false} VisibleIs(ix: Index, size: nat, infos: seq<Info>)
    requires forall i :: 0 <= i < |infos| ==> Listed(ix, infos[i]) && infos[i].off >= 0
    ensures Db.Visible(Open(ix, size), Q.Ids(infos)) == infos
  {
    if infos != [] {
      var n := |infos| - 1;
      VisibleIs(ix, size, infos[..n]);
      assert Q.Ids(infos)[..n] == Q.Ids(infos[..n]);
      assert infos == infos[..n] + [infos[n]];
    }
  }

  lemma SelectedIs(ix: Index, e: Str)
    requires Sound(ix) && e != []
    ensures Q.Selection(Q.Listing(e, [], false), Q.FULL, Q.Records(ix)) == ListingOf(ix, e, [])
    ensures forall i :: 0 <= i < |ListingOf(ix, e, [])| ==>
              Listed(ix, ListingOf(ix, e, [])[i]) && ListingOf(ix, e, [])[i].off >= 0
  {
    hide Sound, Q.Selection, Q.Passing, Q.Records, Listed;
    var f := Q.Listing(e, [], false);
    Q.SelectionIsSlice(f, Q.FULL, Q.Records(ix));
    var mi := ListingOf(ix, e, []);
    forall i | 0 <= i < |mi| ensures Listed(ix, mi[i]) && mi[i].off >= 0 {
      assert mi[i] in mi;
      InListing(ix, e, [], mi[i]);
    }
  }

  /** `get -t id` of ii-tool, with its repeated refreshes, whenever its own walk ends and the grouping
      returns. Without reply cycles it always does, and prints what ThreadExact says. */
  method GetThread(db: Db.DB, id: Str) returns (out: seq<Str>)
    requires db.Valid()
    requires var r := Refresh(db.sum, db.disk.Value(), db.Value());
             r.status == Good && r.handle.Open? && Sound(r.handle.ix)
             && (Known(r.handle, id).Some? && r.handle.ix.hash[id].off >= 0 ==>
                   var m := r.handle.ix.hash[id];
                   m.echo != [] && Ends(r.handle.ix, m)
                   && Returns(r.handle.ix, ListingOf(r.handle.ix, m.echo, []),
                              Db.CacheAfter(db.disk.Value(), db.Value(), db.topic)))
    modifies db`loaded, db`list, db`hash, db`fileSize, db`topic, db.disk`idx
    ensures db.Valid()
    ensures var ix := Refresh(db.sum, old(db.disk.Value()), old(db.Value())).handle.ix;
            var c := Db.CacheAfter(old(db.disk.Value()), old(db.Value()), old(db.topic));
            if id in ix.hash && ix.hash[id].off >= 0 then
              var m := ix.hash[id];
              Listed(ix, m)
              && out == ThreadOf(HandleAll(ix, ListingOf(ix, m.echo, []), Blank(c)).value.topics, TopicOf(ix, m), id)
              && (WellFormed(ix) ==> Printed(ix, m, out))
            else out == []
  {
    hide Refresh, WellFormed, ListingOf, Printed, Grouped, AllFiled, AllDue, Q.Selection, Q.Records, Q.Ids, TopicOf,
         Ends, HandleAll, Returns, AllListed, Sound, CacheOk, Db.CacheAfter;
    ghost var r := Refresh(db.sum, db.disk.Value(), db.Value());
    ghost var ix, c := r.handle.ix, Db.CacheAfter(db.disk.Value(), db.Value(), db.topic);
    Db.RefreshTwice(db.sum, db.disk.Value(), db.Value());
    Db.CacheStays(db.sum, db.disk.Value(), db.Value(), c);
    var info := db.Lookup(id, false);
    if info.None? { return []; }
    var m := info.value;
    HashListed(ix, id);
    SelectedIs(ix, m.echo);
    var q := new Q.Query(Q.Listing(m.echo, [], false), 0, 0);
    var ids := db.SelectIDS(q);
    VisibleIs(ix, r.handle.size, ListingOf(ix, m.echo, []));
    var mis := db.LookupIDS(ids);
    assert db.Value() == r.handle && db.disk.Value() == r.files && db.topic == c;
    ListingListed(ix, m.echo);
    var topic := TopicWalk(Index(db.list, db.hash), m);
    var topics := db.GetTopics(mis);
    if WellFormed(ix) { ThreadExact(ix, m, topics, db.topic); }
    out := ThreadOf(topics, topic, m.id);
  }

  lemma ListingListed(ix: Index, e: Str)
    requires Sound(ix) && e != []
    ensures AllListed(ix, ListingOf(ix, e, []))
  {
    hide Sound, ListingOf, Listed;
    var mi := ListingOf(ix, e, []);
    forall j | 0 <= j < |mi| ensures Listed(ix, mi[j]) {
      assert mi[j] in mi;
      InListing(ix, e, [], mi[j]);
    }
  }

  /** Without reply cycles `get -t` always comes to an end. */
  lemma ThreadReturns(ix: Index, m: Info, c: Cache)
    requires WellFormed(ix) && Listed(ix, m) && m.echo != [] && CacheOk(ix, c)
    ensures Ends(ix, m) && Returns(ix, ListingOf(ix, m.echo, []), c)
  {
    hide Returns, CacheOk, ListingOf, Ends, Listed;
    ListedEnds(ix, m);
    ListingListed(ix, m.echo);
    GroupsComplete(ix, ListingOf(ix, m.echo, []), c);
  }

  /** Where every message was stored after the one it replies to, what is printed is in the order in
      which the messages came: each one after those it answers. */
  lemma ThreadAscends(ix: Index, m: Info, c: Cache)
    requires WellFormed(ix) && CacheOk(ix, c) && O.RepliesFollow(ix)
    requires Listed(ix, m) && m.echo != [] && !IsPrivate(m.echo)
    ensures Ends(ix, m) && Returns(ix, ListingOf(ix, m.echo, []), c)
    ensures O.Ascending(ix, ThreadOf(HandleAll(ix, ListingOf(ix, m.echo, []), Blank(c)).value.topics, TopicOf(ix, m), m.id))
  {
    hide WellFormed, CacheOk, O.RepliesFollow, Returns, HandleAll, ListingOf, TopicOf, Ends, O.ByNumber, O.Ascending, AllListed, AncestorClosed;
    O.SoundOf(ix);
    ListedEnds(ix, m);
    ListingClosed(ix, m.echo, []);
    ListingOrder(ix, m.echo);
    O.OldestFirst(ix, ListingOf(ix, m.echo, []), c);
    Alone(ix, m);
  }

  lemma Alone(ix: Index, m: Info)
    requires Listed(ix, m)
    ensures O.Ascending(ix, [m.id])
  {
  }

  lemma ListingOrder(ix: Index, e: Str)
    requires Sound(ix)
    ensures O.ByNumber(ListingOf(ix, e, []))
  {
    hide Sound, Q.Passing;
    var infos, mi := Q.Records(ix), ListingOf(ix, e, []);
    Q.RecordOrder(ix);
    Q.PassingOrder(Q.Listing(e, [], false), infos);
    assert mi == Q.Passing(Q.Listing(e, [], false), infos);
    forall i, j | 0 <= i < j < |mi| ensures mi[i].num < mi[j].num {}
  }

  // ---------------------------------------------------------------- private echoes

  ghost predicate Readable(ix: Index, x: Str, user: Str) { x in ix.hash && Q.Access(ix.hash[x], user) }

  ghost predicate AllReadable(ix: Index, topics: Groups, user: Str) {
    forall k, x :: k in topics && x in topics[k] ==> Readable(ix, x, user)
  }

  /** The listing of a private echo for a user holds what the user may read, but grouping it files
      ancestors too, and whoever prints the groups prints them unchecked. Starting with nothing
      cached, the groups hold readable messages only exactly when everything on the reply chains of
      the listed messages, within the echo, is readable. */
  lemma GroupsReadableIff(ix: Index, mi: seq<Info>, user: Str)
    requires Sound(ix) && PlainIds(ix) && AllListed(ix, mi) && Returns(ix, mi, map[])
    ensures AllReadable(ix, HandleAll(ix, mi, Blank(map[])).value.topics, user)
            <==> forall j, x :: 0 <= j < |mi| && Cy.OnChain(ix, mi[j], x) ==> Readable(ix, x, user)
  {
    hide Sound, PlainIds, Listed, HandleAll, Readable, Cy.OnChain;
    var topics := HandleAll(ix, mi, Blank(map[])).value.topics;
    if AllReadable(ix, topics, user) {
      forall j, x | 0 <= j < |mi| && Cy.OnChain(ix, mi[j], x) ensures Readable(ix, x, user) {
        Cy.GroupsReached(ix, mi, x);
      }
    }
    if forall j, x :: 0 <= j < |mi| && Cy.OnChain(ix, mi[j], x) ==> Readable(ix, x, user) {
      forall k, x | k in topics && x in topics[k] ensures Readable(ix, x, user) {
        assert Cy.InSome(topics, x);
        Cy.GroupsReached(ix, mi, x);
      }
    }
  }

  /** Without reply cycles that condition is enough whatever was cached. */
  lemma GroupsReadable(ix: Index, mi: seq<Info>, topics: Groups, user: Str)
    requires AllDue(ix, mi, topics)
    requires forall j, x :: 0 <= j < |mi| && Ends(ix, mi[j]) && HasId(Line(ix, mi[j], mi[j].echo), x) ==>
               Readable(ix, x, user)
    ensures AllReadable(ix, topics, user)
  {
    hide Readable, HasId, Line;
    forall k, x | k in topics && x in topics[k] ensures Readable(ix, x, user) {
      assert Due(ix, mi, k, x);
    }
  }
}
