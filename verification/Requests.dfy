/** Requests to the user database that overlap: LoadUsers, Add and Edit are separate operations, each
    under its own lock, and every request keeps the record it has read. */
module Requests {
  import opened Bytes
  import opened Users
  import T = Tags

  /** What a request does, one operation at a time: load, read a record by name, register, or edit
      the record it has read. */
  datatype Step =
    | Begin(r: nat)
    | Look(r: nat, name: Str)
    | SignUp(r: nat, name: Str, mail: Str, mailOk: bool, password: Str, secret: Str, info: Str)
    | Change(r: nat, mail: Str, secret: Str, tags: T.Tags)

  /** The database and the requests that have loaded, with the record each has read. */
  datatype Server = Server(base: Base, held: map<nat, Option<User>>)

  /** A request loads before anything else, and reads a record before it edits it. */
  predicate Enabled(s: Server, step: Step) {
    match step
    case Begin(_) => true
    case Look(r, _) => r in s.held
    case SignUp(r, _, _, _, _, _, _) => r in s.held
    case Change(r, _, _, _) => r in s.held && s.held[r].Some?
  }

  function Found(names: map<Str, User>, name: Str): Option<User> {
    if name in names then Some(names[name]) else None
  }

  /** The record a request edits: the one it read, with new fields. */
  function Altered(s: Server, step: Step): User
    requires step.Change? && Enabled(s, step)
  {
    s.held[step.r].value.(mail := step.mail, secret := step.secret, tags := step.tags)
  }

  ghost function Next(s: Server, step: Step): Server
    requires Enabled(s, step)
  {
    match step
    case Begin(r) =>
      Server(Load(s.base).0, if r in s.held then s.held else s.held[r := None])
    case Look(r, name) => s.(held := s.held[r := Found(s.base.mem.names, name)])
    case SignUp(r, name, mail, mailOk, password, secret, info) =>
      if Accepts(s.base, name, mailOk, password)
      then s.(base := Added(s.base, NewUser(s.base, name, mail, secret, info))) else s
    case Change(r, _, _, _) => s.(base := Rewritten(s.base, Altered(s, step)).0)
  }

  ghost function Run(s: Server, steps: seq<Step>): Option<Server> {
    if steps == [] then Some(s)
    else
      var before, step := Run(s, steps[..|steps| - 1]), steps[|steps| - 1];
      if before.Some? && Enabled(before.value, step) then Some(Next(before.value, step)) else None
  }

  function Start(file: Str, policy: Str): Server { Server(Opened(file, policy), map[]) }

  /** One operation on the object. */
  method Perform(db: UDB, held0: map<nat, Option<User>>, step: Step) returns (held: map<nat, Option<User>>)
    requires Enabled(Server(db.Value(), held0), step)
    modifies db
    ensures Server(db.Value(), held) == Next(old(Server(db.Value(), held0)), step)
  {
    hide Load, Rewritten, Added, NewUser, Accepts;
    held := held0;
    var ok: bool;
    match step {
      case Begin(r) =>
        ok := db.LoadUsers();
        if r !in held { held := held[r := None]; }
      case Look(r, name) =>
        var u := db.UserInfoName(name);
        held := held[r := u];
      case SignUp(r, name, mail, mailOk, password, secret, info) =>
        ok := db.Add(name, mail, mailOk, password, secret, info);
      case Change(r, mail, secret, tags) =>
        ok := db.Edit(held[r].value.(mail := mail, secret := secret, tags := tags));
    }
  }

  method PerformAll(db: UDB, steps: seq<Step>) returns (held: map<nat, Option<User>>)
    requires Run(Server(db.Value(), map[]), steps).Some?
    modifies db
    ensures Some(Server(db.Value(), held)) == Run(old(Server(db.Value(), map[])), steps)
  {
    hide Next, Enabled;
    held := map[];
    ghost var s := Server(db.Value(), map[]);
    for i := 0 to |steps|
      invariant Run(s, steps[..i]) == Some(Server(db.Value(), held))
    {
      PrefixRuns(s, steps, i + 1);
      assert steps[..i + 1][..i] == steps[..i];
      held := Perform(db, held, steps[i]);
    }
    assert steps[..|steps|] == steps;
  }

  lemma {:induction false} PrefixRuns(s: Server, steps: seq<Step>, n: nat)
    requires Run(s, steps).Some? && n <= |steps|
    ensures Run(s, steps[..n]).Some?
  {
    hide Next, Enabled;
    if n < |steps| {
      PrefixRuns(s, steps[..|steps| - 1], n);
      assert steps[..|steps| - 1][..n] == steps[..n];
    } else {
      assert steps[..n] == steps;
    }
  }

  /** The steps of a request that is not interrupted. */
  function StepsOf(r: nat, c: Call): seq<Step> {
    match c
    case Reload => [Begin(r)]
    case Register(name, mail, mailOk, password, secret, info) =>
      [Begin(r), SignUp(r, name, mail, mailOk, password, secret, info)]
    case Alter(name, mail, secret, tags) => [Begin(r), Look(r, name), Change(r, mail, secret, tags)]
  }

  // ---------------------------------------------------------------- what can go wrong

  /** A file of distinct users, each with an id that was given out: never 0, which is what an edit
      writes for a user who was added and not loaded since. */
  ghost predicate Healthy(file: Str) { FileOk(file) && NoZero(Entries(Lines(file))) }

  ghost predicate NoZero(us: seq<User>) { forall i :: 0 <= i < |us| ==> us[i].id != 0 }

  /** No accepted registration is waiting to be loaded. */
  predicate Quiet(m: Mem) { forall n :: n in m.list ==> n in m.names }

  predicate Removed(u: User) { T.Get(u.tags, STATUS) == Some(REMOVE) }

  ghost predicate IdTaken(b: Base, id: int) {
    var us := Entries(Lines(b.file)); exists i :: 0 <= i < |us| && us[i].id == id
  }

  /** The id of the edited record is not that of another user who stays. */
  predicate NoClash(m: Mem, u: User) {
    Removed(u) || forall n :: n in m.names && n != u.name && !Removed(m.names[n]) ==> m.names[n].id != u.id
  }

  /** What can be seen before a step: a registration that is accepted finds no other one waiting to
      be loaded, and a free id; an edit finds none waiting either, and the record it was read from
      has not given its id to another user since. */
  ghost predicate Safe(s: Server, step: Step)
    requires Enabled(s, step)
  {
    match step
    case SignUp(_, name, _, mailOk, password, _, _) =>
      Accepts(s.base, name, mailOk, password) ==>
        Quiet(s.base.mem) && !IdTaken(s.base, Inc32(MaxId(s.base.mem.names)))
    case Change(_, _, _, _) =>
      Altered(s, step).name in s.base.mem.names ==>
        Quiet(s.base.mem) && NoClash(s.base.mem, Altered(s, step))
    case _ => true
  }

  // ---------------------------------------------------------------- invariant

  ghost predicate GoodUser(u: User) { UserOk(u) && u.id != 0 }

  /** The loaded records are under their names, listed once, with ids of their own where they stay. */
  ghost predicate MemOk(m: Mem) {
    && (forall n :: n in m.names ==> m.names[n].name == n && GoodUser(m.names[n]) && n in m.list)
    && T.NoDups(m.list)
    && (forall n, k :: n in m.names && k in m.names && n != k && !Removed(m.names[n]) && !Removed(m.names[k]) ==>
          m.names[n].id != m.names[k].id)
  }

  ghost predicate AllNamed(us: seq<User>, names: map<Str, User>) {
    forall i :: 0 <= i < |us| ==> us[i].name in names
  }

  /** One registration is waiting: it is the last user of the file and of the list, under the id
      that any further registration would get. */
  ghost predicate Waiting(b: Base) {
    var us, l, n, k := Entries(Lines(b.file)), b.mem.list, |b.mem.list| - 1, |Entries(Lines(b.file))| - 1;
    l != [] && us != [] && l[n] !in b.mem.names && FieldOk(l[n]) && AllNamed(us[..k], b.mem.names)
    && (forall i :: 0 <= i < n ==> l[i] in b.mem.names)
    && us[k].name == l[n] && us[k].id == Inc32(MaxId(b.mem.names))
  }

  /** What a run keeps as long as its steps are safe. */
  ghost predicate BaseOk(b: Base, unwritten: map<Str, User>) {
    var us := Entries(Lines(b.file));
    Healthy(b.file) && b.size <= |b.file| && MemOk(b.mem)
    && (if Quiet(b.mem) then AllNamed(us, b.mem.names) else Waiting(b))
    && (b.size == |b.file| ==> Quiet(b.mem) && Holds(b.mem, us, unwritten))
  }

  ghost predicate HeldOk(held: map<nat, Option<User>>) {
    forall r :: r in held && held[r].Some? ==> GoodUser(held[r].value)
  }

  /** Names, mails, hashes and tags as the checks before a call let them through. */
  ghost predicate GoodStep(step: Step) {
    match step
    case SignUp(_, _, mail, _, _, secret, info) => FieldOk(mail) && FieldOk(secret) && FieldOk(info)
    case Change(_, mail, secret, tags) =>
      FieldOk(mail) && FieldOk(secret) && T.Canonical(tags) && FieldOk(T.Print(tags))
    case _ => true
  }

  // ---------------------------------------------------------------- loading

  lemma LoadedMem(us: seq<User>)
    requires DistinctUsers(us) && NoZero(us) && forall i :: 0 <= i < |us| ==> UserOk(us[i])
    ensures MemOk(MemOf(us)) && Quiet(MemOf(us)) && AllNamed(us, MemOf(us).names)
  {
    hide MemOf, UserOk, SecretsOk, Removed, NoZero;
    MapsAgree(us);
    var m := MemOf(us);
    forall n | n in m.names ensures m.names[n].name == n && GoodUser(m.names[n]) { LoadedGood(us, n); }
    forall n, k | n in m.names && k in m.names && n != k ensures m.names[n].id != m.names[k].id { LoadedApart(us, n, k); }
    forall i | 0 <= i < |us| ensures us[i].name in m.names { assert UserIn(m, us[i]); }
  }

  lemma LoadedGood(us: seq<User>, n: Str)
    requires NoZero(us) && n in MemOf(us).names && forall i :: 0 <= i < |us| ==> UserOk(us[i])
    ensures MemOf(us).names[n].name == n && GoodUser(MemOf(us).names[n])
  {
    hide MemOf, UserOk;
    NameAt(us, n);
  }

  lemma LoadedApart(us: seq<User>, n: Str, k: Str)
    requires DistinctUsers(us) && n in MemOf(us).names && k in MemOf(us).names && n != k
    ensures MemOf(us).names[n].id != MemOf(us).names[k].id
  {
    hide MemOf;
    NameAt(us, n);
    NameAt(us, k);
  }

  lemma LoadOk(b: Base, was: map<Str, User>)
    requires Healthy(b.file) && b.size <= |b.file|
    requires b.size == |b.file| ==> BaseOk(b, was)
    ensures var c := Load(b);
            c.1 && c.0.file == b.file && c.0.size == |b.file|
            && BaseOk(c.0, if b.size == |b.file| then was else map[])
  {
    hide ParseUser, Entries, Lines, MemOf, LoadLines, UserOk, DistinctUsers, MemOk, Quiet;
    LoadIsMem(Lines(b.file), LimitAt(b.policy, b.polSize));
    var us := Entries(Lines(b.file));
    EntriesGood(b.file);
    LoadedMem(us);
    assert MemOf(us).names + map[] == MemOf(us).names;
  }

  lemma OpenedOk(file: Str, policy: Str)
    requires Healthy(file)
    ensures file == [] ==> BaseOk(Opened(file, policy), map[])
  {
    if file == [] {
      NoEntries();
      assert Lines(file) == [];
      assert NOBODY.names + map[] == NOBODY.names;
    }
  }

  // ---------------------------------------------------------------- registering

  lemma NewGood(b: Base, name: Str, mail: Str, secret: Str, info: Str)
    requires MemOk(b.mem) && IsUsername(name) && FieldOk(mail) && FieldOk(secret) && FieldOk(info)
    ensures GoodUser(NewUser(b, name, mail, secret, info)) && NewUser(b, name, mail, secret, info).name == name
  {
    hide UserOk, IsUsername, FieldOk, MaxId, Removed, NewTags;
    forall n | n in b.mem.names ensures b.mem.names[n].id <= MAX_INT32 { MaxIs32(b.mem.names[n]); }
    NewUserOk(b, name, mail, secret, info);
  }

  lemma SignUpIff(b: Base, was: map<Str, User>, name: Str, mail: Str, mailOk: bool, password: Str, secret: Str, info: Str)
    requires BaseOk(b, was) && Accepts(b, name, mailOk, password)
    requires FieldOk(mail) && FieldOk(secret) && FieldOk(info)
    ensures var next := Added(b, NewUser(b, name, mail, secret, info));
            (Healthy(next.file) <==> Quiet(b.mem) && !IdTaken(b, Inc32(MaxId(b.mem.names))))
            && (Healthy(next.file) ==> BaseOk(next, map[]))
  {
    hide Entries, Lines, UserOk, MemOk, Quiet, IsUsername, FieldOk, UserLine, MaxId, NewTags, NoPanic, Holds, Waiting;
    var u, us := NewUser(b, name, mail, secret, info), Entries(Lines(b.file));
    NewGood(b, name, mail, secret, info);
    AppendUser(b.file, u);
    if Quiet(b.mem) {
      DistinctSnoc(us, u);
      NoZeroSnoc(us, u);
      if Healthy(Added(b, u).file) { NowWaiting(b, was, u); }
    } else {
      WaitingLast(b, us, u);
    }
  }

  lemma NoZeroSnoc(us: seq<User>, u: User)
    requires NoZero(us) && u.id != 0
    ensures NoZero(us + [u])
  {
  }

  /** While one registration waits, the next one gets the same id. */
  lemma WaitingLast(b: Base, us: seq<User>, u: User)
    requires Waiting(b) && us == Entries(Lines(b.file)) && u.id == Inc32(MaxId(b.mem.names))
    ensures !DistinctUsers(us + [u])
  {
    hide Entries, Lines, MaxId;
    var all, k := us + [u], |us| - 1;
    assert all[k].id == all[k + 1].id;
  }

  lemma NowWaiting(b: Base, was: map<Str, User>, u: User)
    requires BaseOk(b, was) && Quiet(b.mem) && GoodUser(u) && u.name !in b.mem.names
    requires u.id == Inc32(MaxId(b.mem.names)) && Healthy(Added(b, u).file)
    requires Entries(Lines(Added(b, u).file)) == Entries(Lines(b.file)) + [u]
    ensures BaseOk(Added(b, u), map[])
  {
    hide Entries, Lines, UserOk, UserLine, MaxId, Healthy, Holds;
    var c, us := Added(b, u), Entries(Lines(b.file));
    assert FieldOk(u.name) by { NameFits(u); }
    assert (us + [u])[..|us|] == us;
    ListSnoc(b.mem, u.name);
    assert c.mem.list[|b.mem.list|] == u.name;
  }

  lemma NameFits(u: User)
    requires UserOk(u)
    ensures FieldOk(u.name)
  {
  }

  lemma ListSnoc(m: Mem, name: Str)
    requires MemOk(m) && Quiet(m) && name !in m.names
    ensures MemOk(m.(list := m.list + [name])) && !Quiet(m.(list := m.list + [name]))
  {
    hide Removed, UserOk;
    var l := m.list + [name];
    assert l[|m.list|] == name;
    forall i | 0 <= i < |m.list| ensures l[i] != name { assert m.list[i] in m.list; }
    forall n | n in m.names ensures n in l { assert n in m.list; }
  }

  // ---------------------------------------------------------------- editing

  lemma {:induction false} EditedIs(us: seq<User>, u: User, x: User)
    requires forall i :: 0 <= i < |us| && us[i].name == u.name ==> us[i] == u
    ensures x in Edited(us, u) <==> x in us && !Removed(x)
  {
    if us != [] {
      var n := |us| - 1;
      EditedIs(us[..n], u, x);
      assert us == us[..n] + [us[n]];
    }
  }

  ghost predicate NamesApart(us: seq<User>) { forall i, j :: 0 <= i < j < |us| ==> us[i].name != us[j].name }

  /** Those who stay have ids of their own. */
  ghost predicate OwnIds(us: seq<User>) {
    forall i, j :: 0 <= i < j < |us| && !Removed(us[i]) && !Removed(us[j]) ==> us[i].id != us[j].id
  }

  /** With distinct names, the users who stay are distinct exactly when their ids are. */
  lemma {:induction false} StayDistinct(us: seq<User>, u: User)
    requires (forall i :: 0 <= i < |us| && us[i].name == u.name ==> us[i] == u) && NamesApart(us)
    ensures DistinctUsers(Edited(us, u)) <==> OwnIds(us)
  {
    hide Removed, OwnIds, NamesApart, DistinctUsers, Edited;
    if us == [] {
      NobodyStays(u);
    } else {
      var n := |us| - 1;
      var init, e := us[..n], Edited(us[..n], u);
      NamesInit(us);
      StayDistinct(init, u);
      EditedSnoc(us, u);
      if Removed(us[n]) {
        OwnIdsRemoved(us);
      } else {
        forall x ensures x in e <==> x in init && !Removed(x) { EditedIs(init, u, x); }
        StayLast(us, e);
      }
    }
  }

  lemma NobodyStays(u: User)
    ensures DistinctUsers(Edited([], u)) && OwnIds([])
  {
  }

  lemma NamesInit(us: seq<User>)
    requires us != [] && NamesApart(us)
    ensures NamesApart(us[..|us| - 1])
    ensures forall x :: x in us[..|us| - 1] ==> x.name != us[|us| - 1].name
  {
    var n := |us| - 1;
    forall i | 0 <= i < n ensures us[..n][i] == us[i] && us[i].name != us[n].name {}
  }

  lemma EditedSnoc(us: seq<User>, u: User)
    requires us != [] && (us[|us| - 1].name == u.name ==> us[|us| - 1] == u)
    ensures Edited(us, u) == if Removed(us[|us| - 1]) then Edited(us[..|us| - 1], u)
                             else Edited(us[..|us| - 1], u) + [us[|us| - 1]]
  {
  }

  lemma OwnIdsRemoved(us: seq<User>)
    requires us != [] && Removed(us[|us| - 1])
    ensures OwnIds(us) <==> OwnIds(us[..|us| - 1])
  {
    hide Removed;
    var n := |us| - 1;
    var init := us[..n];
    forall i | 0 <= i < n ensures init[i] == us[i] {}
    if OwnIds(init) {
      forall i, j | 0 <= i < j < |us| && !Removed(us[i]) && !Removed(us[j]) ensures us[i].id != us[j].id {
        assert init[i] == us[i] && init[j] == us[j];
      }
    }
  }

  lemma OwnIdsSnoc(us: seq<User>)
    requires us != [] && !Removed(us[|us| - 1])
    ensures OwnIds(us) <==> OwnIds(us[..|us| - 1])
                            && forall x :: x in us[..|us| - 1] && !Removed(x) ==> x.id != us[|us| - 1].id
  {
    hide Removed;
    var n := |us| - 1;
    var init := us[..n];
    if OwnIds(us) {
      forall x | x in init && !Removed(x) ensures x.id != us[n].id {
        var i :| 0 <= i < n && init[i] == x;
        assert us[i] == x;
      }
    }
    if OwnIds(init) && forall x :: x in init && !Removed(x) ==> x.id != us[n].id {
      forall i, j | 0 <= i < j < |us| && !Removed(us[i]) && !Removed(us[j]) ensures us[i].id != us[j].id {
        assert init[i] == us[i] && init[i] in init;
        if j < n { assert init[j] == us[j]; }
      }
    }
  }

  lemma DistinctMore(e: seq<User>, x: User)
    requires forall y :: y in e ==> y.name != x.name
    ensures DistinctUsers(e + [x]) <==> DistinctUsers(e) && forall y :: y in e ==> y.id != x.id
  {
    var all := e + [x];
    if DistinctUsers(all) {
      forall i, j | 0 <= i < j < |e| ensures e[i].id != e[j].id && e[i].name != e[j].name {
        assert all[i] == e[i] && all[j] == e[j];
      }
      forall y | y in e ensures y.id != x.id {
        var i :| 0 <= i < |e| && e[i] == y;
        assert all[i] == y && all[|e|] == x;
      }
    }
  }

  lemma StayLast(us: seq<User>, e: seq<User>)
    requires us != [] && !Removed(us[|us| - 1]) && NamesApart(us)
    requires forall x :: x in e <==> x in us[..|us| - 1] && !Removed(x)
    requires DistinctUsers(e) <==> OwnIds(us[..|us| - 1])
    ensures DistinctUsers(e + [us[|us| - 1]]) <==> OwnIds(us)
  {
    hide Removed, OwnIds, NamesApart, DistinctUsers;
    NamesInit(us);
    OwnIdsSnoc(us);
    DistinctMore(e, us[|us| - 1]);
  }

  /** The maps after an edit, before anything is written. */
  function Overridden(m: Mem, u: User): Mem { m.(names := m.names[u.name := u]) }

  /** The records an edit goes through, in file order. */
  function Rows(m: Mem, u: User): (us: seq<User>)
    requires Quiet(m)
    ensures |us| == |m.list|
  {
    Current(Overridden(m, u))
  }

  lemma CurrentIs(m: Mem, u: User)
    requires MemOk(m) && Quiet(m) && GoodUser(u) && u.name in m.names
    ensures var n, vs := Overridden(m, u), Rows(m, u);
            NamesApart(vs) && (forall i :: 0 <= i < |vs| && vs[i].name == u.name ==> vs[i] == u)
            && (forall i :: 0 <= i < |vs| ==> GoodUser(vs[i]) && vs[i].name == m.list[i]
                                               && m.list[i] in n.names && n.names[m.list[i]] == vs[i])
            && u in vs
  {
    hide UserOk, Removed;
    var n, vs := Overridden(m, u), Rows(m, u);
    forall i | 0 <= i < |vs| ensures GoodUser(vs[i]) && vs[i].name == m.list[i] { assert m.list[i] in m.names; }
    assert u.name in m.list;
    var i :| 0 <= i < |m.list| && m.list[i] == u.name;
    assert vs[i] == u;
  }

  /** Among the users loaded, only the edited one can clash. */
  lemma ClashIff(m: Mem, u: User)
    requires MemOk(m) && Quiet(m) && GoodUser(u) && u.name in m.names
    ensures OwnIds(Rows(m, u)) <==> NoClash(m, u)
  {
    hide MemOk, Quiet, GoodUser, OwnIds, NoClash, Rows;
    if OwnIds(Rows(m, u)) { OwnNoClash(m, u); }
    if NoClash(m, u) { NoClashOwn(m, u); }
  }

  lemma OwnNoClash(m: Mem, u: User)
    requires MemOk(m) && Quiet(m) && GoodUser(u) && u.name in m.names && OwnIds(Rows(m, u))
    ensures NoClash(m, u)
  {
    hide UserOk, Removed, Quiet, GoodUser;
    CurrentIs(m, u);
    var vs := Rows(m, u);
    if !Removed(u) {
      var k :| 0 <= k < |vs| && vs[k] == u;
      forall n | n in m.names && n != u.name && !Removed(m.names[n]) ensures m.names[n].id != u.id {
        assert n in m.list;
        var i :| 0 <= i < |m.list| && m.list[i] == n;
        OneOf(m, u, i);
      }
    }
  }

  lemma NoClashOwn(m: Mem, u: User)
    requires MemOk(m) && Quiet(m) && GoodUser(u) && u.name in m.names && NoClash(m, u)
    ensures OwnIds(Rows(m, u))
  {
    hide UserOk, Removed, Quiet, GoodUser, Rows;
    CurrentIs(m, u);
    var vs := Rows(m, u);
    forall i, j | 0 <= i < j < |vs| && !Removed(vs[i]) && !Removed(vs[j]) ensures vs[i].id != vs[j].id {
      assert m.list[i] != m.list[j];
      OneOf(m, u, i);
      OneOf(m, u, j);
    }
  }

  lemma OneOf(m: Mem, u: User, i: nat)
    requires MemOk(m) && Quiet(m) && GoodUser(u) && u.name in m.names && i < |m.list|
    ensures var v := Rows(m, u)[i];
            m.list[i] in m.names && v.name == m.list[i] && v == (if m.list[i] == u.name then u else m.names[m.list[i]])
  {
    assert m.list[i] in m.list;
  }

  /** The text an edit writes when no registration is waiting. */
  lemma QuietText(m: Mem, u: User)
    requires MemOk(m) && Quiet(m) && GoodUser(u) && u.name in m.names
    ensures var k := Kept(Overridden(m, u).names, m.list);
            Terminated(Unlines(k)) && NoPanic(Lines(Unlines(k)))
            && Entries(Lines(Unlines(k))) == Edited(Rows(m, u), u)
            && (k == [] ==> Removed(u))
  {
    hide UserOk, Removed, Quiet, MemOk, Entries, Lines, Unlines, Kept, ParseUser, Edited;
    CurrentIs(m, u);
    var n, vs := Overridden(m, u), Rows(m, u);
    var k := Kept(n.names, m.list);
    KeptIsEdited(vs, u, n.names, m.list);
    LinesUnlines(k);
    UnlinesTerminated(k);
    if k == [] {
      NoEntries();
      EditedIs(vs, u, u);
    }
  }

  lemma {:induction false} KeptSnoc(names: map<Str, User>, l: seq<Str>, f: Str)
    requires f !in names
    ensures Kept(names, l + [f]) == Kept(names, l) + [UserLine(User(0, f, [], [], T.EMPTY))]
  {
    hide UserLine;
    assert (l + [f])[..|l|] == l;
  }

  lemma ZeroOk(f: Str)
    requires FieldOk(f)
    ensures UserOk(User(0, f, [], [], T.EMPTY))
  {
    EmptyOk();
  }

  /** The lines of the users loaded before the one that waits. */
  lemma LoadedLines(m: Mem, names: map<Str, User>, l: seq<Str>, u: User)
    requires names == Overridden(m, u).names && GoodUser(u) && u.name in m.names
    requires (forall n :: n in m.names ==> m.names[n].name == n && GoodUser(m.names[n]))
    requires forall i :: 0 <= i < |l| ==> l[i] in m.names
    ensures NoPanic(Kept(names, l)) && AllFree(Kept(names, l), NL)
  {
    hide UserOk, Kept;
    var vs := seq(|l|, i requires 0 <= i < |l| => names[l[i]]);
    forall i | 0 <= i < |l| ensures vs[i].name == l[i] && l[i] in names && UserOk(vs[i]) {}
    KeptIsEdited(vs, u, names, l);
  }

  lemma ZeroLine(k: seq<Str>, f: Str) returns (zero: User)
    requires FieldOk(f) && AllFree(k, NL)
    ensures zero == User(0, f, [], [], T.EMPTY)
    ensures zero in Entries(Lines(Unlines(k + [UserLine(zero)])))
  {
    hide UserOk, UserLine, Lines, Unlines, Entries, ParseUser;
    zero := User(0, f, [], [], T.EMPTY);
    ZeroOk(f);
    LineParses(zero);
    LinesUnlines(k + [UserLine(zero)]);
    EntriesAppend(k, [UserLine(zero)]);
    OneEntry(zero);
    assert zero in Entries(k) + [zero];
  }

  /** While a registration waits, an edit writes it with id 0, and without its mail and secret. */
  lemma WaitingText(b: Base, u: User) returns (zero: User)
    requires MemOk(b.mem) && Waiting(b) && GoodUser(u) && u.name in b.mem.names
    ensures var k := Kept(Overridden(b.mem, u).names, b.mem.list);
            k != [] && zero.id == 0 && zero in Entries(Lines(Unlines(k)))
  {
    hide UserOk, Removed, Quiet, Unlines, Lines, Entries, Kept, UserLine, MaxId;
    var m := b.mem;
    var n := |m.list| - 1;
    var names, l, f := Overridden(m, u).names, m.list[..n], m.list[n];
    assert m.list == l + [f];
    KeptSnoc(names, l, f);
    LoadedLines(m, names, l, u);
    zero := ZeroLine(Kept(names, l), f);
  }

  lemma ZeroSick(file: Str, u: User)
    requires u in Entries(Lines(file)) && u.id == 0
    ensures !Healthy(file)
  {
    hide Entries, Lines;
  }

  lemma NoZeroEdited(vs: seq<User>, u: User)
    requires forall i :: 0 <= i < |vs| ==> GoodUser(vs[i])
    requires forall i :: 0 <= i < |vs| && vs[i].name == u.name ==> vs[i] == u
    ensures NoZero(Edited(vs, u))
    ensures forall i :: 0 <= i < |Edited(vs, u)| ==> Edited(vs, u)[i] in vs
  {
    hide UserOk, Removed;
    forall i | 0 <= i < |Edited(vs, u)| ensures Edited(vs, u)[i] in vs && Edited(vs, u)[i].id != 0 {
      EditedIs(vs, u, Edited(vs, u)[i]);
      var j :| 0 <= j < |vs| && vs[j] == Edited(vs, u)[i];
    }
  }

  lemma OverriddenOk(m: Mem, u: User)
    requires MemOk(m) && Quiet(m) && GoodUser(u) && u.name in m.names && NoClash(m, u)
    ensures MemOk(Overridden(m, u)) && Quiet(Overridden(m, u))
  {
    hide UserOk, Removed;
  }

  lemma ChangeIff(b: Base, was: map<Str, User>, u: User)
    requires BaseOk(b, was) && GoodUser(u) && u.name in b.mem.names
    ensures var r := Rewritten(b, u);
            (Healthy(r.0.file) <==> Quiet(b.mem) && NoClash(b.mem, u))
            && (Healthy(r.0.file) ==> BaseOk(r.0, if r.1 then map[] else was[u.name := u]))
  {
    hide Entries, Lines, Unlines, UserOk, MemOk, Quiet, NoClash, Kept, Holds, AllNamed, DistinctUsers, Edited, NoPanic,
         Waiting;
    var r := Rewritten(b, u);
    var k := Kept(Overridden(b.mem, u).names, b.mem.list);
    if Quiet(b.mem) {
      QuietText(b.mem, u);
      CurrentIs(b.mem, u);
      ClashIff(b.mem, u);
      var vs := Rows(b.mem, u);
      StayDistinct(vs, u);
      NoZeroEdited(vs, u);
      if k == [] { RemovedFits(b.mem, u); }
      if NoClash(b.mem, u) { ChangeOk(b, was, u); }
    } else {
      var zero := WaitingText(b, u);
      ZeroSick(r.0.file, zero);
    }
  }

  lemma RemovedFits(m: Mem, u: User)
    requires Removed(u)
    ensures NoClash(m, u)
  {
  }

  lemma ChangeOk(b: Base, was: map<Str, User>, u: User)
    requires BaseOk(b, was) && GoodUser(u) && u.name in b.mem.names && Quiet(b.mem) && NoClash(b.mem, u)
    requires Healthy(Rewritten(b, u).0.file)
    ensures BaseOk(Rewritten(b, u).0, if Rewritten(b, u).1 then map[] else was[u.name := u])
  {
    hide Entries, Lines, Unlines, UserOk, MemOk, Quiet, NoClash, Kept, DistinctUsers, Edited, Healthy, MemOf;
    var r, us := Rewritten(b, u), Entries(Lines(b.file));
    OverriddenOk(b.mem, u);
    if r.1 {
      QuietText(b.mem, u);
      CurrentIs(b.mem, u);
      var vs := Rows(b.mem, u);
      NoZeroEdited(vs, u);
      NamedEdited(b.mem, u, Edited(vs, u));
      SomeText(Kept(Overridden(b.mem, u).names, b.mem.list));
    } else {
      assert (MemOf(us).names + was)[u.name := u] == MemOf(us).names + was[u.name := u];
    }
  }

  lemma NamedEdited(m: Mem, u: User, e: seq<User>)
    requires MemOk(m) && Quiet(m) && GoodUser(u) && u.name in m.names
    requires forall i :: 0 <= i < |e| ==> e[i] in Rows(m, u)
    ensures AllNamed(e, Overridden(m, u).names)
  {
    hide UserOk, Removed, MemOk, Quiet;
    CurrentIs(m, u);
    var vs := Rows(m, u);
    forall i | 0 <= i < |e| ensures e[i].name in Overridden(m, u).names {
      var j :| 0 <= j < |vs| && vs[j] == e[i];
      OneOf(m, u, j);
    }
  }

  // ---------------------------------------------------------------- runs

  /** The edits in memory that no file holds. */
  ghost function Unwritten(s: Server, was: map<Str, User>, step: Step): map<Str, User>
    requires Enabled(s, step)
  {
    match step
    case Begin(_) => if s.base.size == |s.base.file| then was else map[]
    case Look(_, _) => was
    case SignUp(_, name, _, mailOk, password, _, _) =>
      if Accepts(s.base, name, mailOk, password) then map[] else was
    case Change(_, _, _, _) =>
      var u := Altered(s, step);
      if u.name !in s.base.mem.names then was
      else if Rewritten(s.base, u).1 then map[] else was[u.name := u]
  }

  /** The state of a run and the edits it has not written. */
  ghost function Trace(s: Server, steps: seq<Step>): map<Str, User>
    requires Run(s, steps).Some?
  {
    if steps == [] then map[]
    else
      var before := steps[..|steps| - 1];
      Unwritten(Run(s, before).value, Trace(s, before), steps[|steps| - 1])
  }

  /** A state that safe steps lead to; before any request has loaded, nothing is known but the file. */
  ghost predicate StateOk(file: Str, policy: Str, s: Server, was: map<Str, User>) {
    HeldOk(s.held) && (if s.held == map[] then s.base == Opened(file, policy) && Healthy(file) && was == map[]
                       else BaseOk(s.base, was))
  }

  lemma StepIff(file: Str, policy: Str, s: Server, was: map<Str, User>, step: Step)
    requires StateOk(file, policy, s, was) && Enabled(s, step) && GoodStep(step)
    ensures Healthy(Next(s, step).base.file) <==> Safe(s, step)
    ensures Safe(s, step) ==> StateOk(file, policy, Next(s, step), Unwritten(s, was, step))
  {
    hide BaseOk, Healthy, FieldOk, Load, Rewritten, Added, NewUser, Accepts, Quiet, NoClash, IdTaken, GoodUser,
         T.Canonical, T.Print, MaxId;
    match step
    case Begin(r) =>
      BeginOk(file, policy, s, was, r);
    case Look(r, name) =>
      HealthyOk(s.base, was);
      if name in s.base.mem.names { FoundGood(s.base, was, name); }
    case SignUp(r, name, mail, mailOk, password, secret, info) =>
      HealthyOk(s.base, was);
      if Accepts(s.base, name, mailOk, password) {
        SignUpIff(s.base, was, name, mail, mailOk, password, secret, info);
      }
    case Change(r, mail, secret, tags) =>
      HealthyOk(s.base, was);
      var u := Altered(s, step);
      AlteredGood(s.held[r].value, u);
      if u.name in s.base.mem.names { ChangeIff(s.base, was, u); } else { NotThere(s.base, u); }
  }

  lemma HealthyOk(b: Base, was: map<Str, User>)
    requires BaseOk(b, was)
    ensures Healthy(b.file)
  {
  }

  lemma NotThere(b: Base, u: User)
    requires u.name !in b.mem.names
    ensures Rewritten(b, u) == (b, false)
  {
  }

  lemma FoundGood(b: Base, was: map<Str, User>, name: Str)
    requires BaseOk(b, was) && name in b.mem.names
    ensures GoodUser(b.mem.names[name])
  {
    hide Healthy, Quiet, Waiting, Holds, UserOk;
  }

  lemma AlteredGood(u: User, v: User)
    requires GoodUser(u) && v == u.(mail := v.mail, secret := v.secret, tags := v.tags)
    requires FieldOk(v.mail) && FieldOk(v.secret) && T.Canonical(v.tags) && FieldOk(T.Print(v.tags))
    ensures GoodUser(v)
  {
    hide T.Canonical, T.Print;
  }

  lemma BeginOk(file: Str, policy: Str, s: Server, was: map<Str, User>, r: nat)
    requires StateOk(file, policy, s, was)
    ensures StateOk(file, policy, Next(s, Begin(r)), Unwritten(s, was, Begin(r))) && Healthy(Next(s, Begin(r)).base.file)
  {
    hide BaseOk, Healthy, Load, GoodUser;
    if s.held == map[] {
      OpenedOk(file, policy);
    } else {
      HealthyOk(s.base, was);
      SizeFits(s.base, was);
    }
    LoadOk(s.base, was);
    HealthyOk(Load(s.base).0, Unwritten(s, was, Begin(r)));
  }

  lemma SizeFits(b: Base, was: map<Str, User>)
    requires BaseOk(b, was)
    ensures b.size <= |b.file|
  {
  }

  /** Every file the run goes through is healthy. */
  ghost predicate AlwaysHealthy(s: Server, steps: seq<Step>)
    requires Run(s, steps).Some?
  {
    (steps != [] ==> AlwaysHealthy(s, steps[..|steps| - 1])) && Healthy(Run(s, steps).value.base.file)
  }

  /** Every step of the run is safe where it is taken. */
  ghost predicate AlwaysSafe(s: Server, steps: seq<Step>)
    requires Run(s, steps).Some?
  {
    steps != [] ==>
      AlwaysSafe(s, steps[..|steps| - 1])
      && Safe(Run(s, steps[..|steps| - 1]).value, steps[|steps| - 1])
  }

  lemma RunSnoc(s: Server, steps: seq<Step>)
    requires steps != [] && Run(s, steps).Some?
    ensures var n := |steps| - 1;
            Run(s, steps[..n]).Some? && Enabled(Run(s, steps[..n]).value, steps[n])
            && Run(s, steps).value == Next(Run(s, steps[..n]).value, steps[n])
  {
    hide Next, Enabled;
  }

  ghost predicate GoodSteps(steps: seq<Step>) { forall i :: 0 <= i < |steps| ==> GoodStep(steps[i]) }

  /** Overlapping requests, in any interleaving of their loads, reads, registrations and edits: the
      file holds distinct users with ids that were given out, all the way, exactly when all the way
      every accepted registration found none waiting to be loaded and a free id, and every edit of
      a user who is there found none waiting and an id that nobody else who stays has now. */
  lemma {:induction false} HealthyIff(file: Str, policy: Str, steps: seq<Step>)
    requires Healthy(file) && GoodSteps(steps) && Run(Start(file, policy), steps).Some?
    ensures AlwaysHealthy(Start(file, policy), steps) <==> AlwaysSafe(Start(file, policy), steps)
    ensures AlwaysSafe(Start(file, policy), steps) ==>
              StateOk(file, policy, Run(Start(file, policy), steps).value, Trace(Start(file, policy), steps))
  {
    hide Healthy, GoodStep, Next, Enabled, Safe, StateOk, Unwritten;
    var s := Start(file, policy);
    if steps == [] {
      NoSteps(file, policy);
    } else {
      var n := |steps| - 1;
      RunSnoc(s, steps);
      HealthyIff(file, policy, steps[..n]);
      if AlwaysSafe(s, steps[..n]) {
        StepIff(file, policy, Run(s, steps[..n]).value, Trace(s, steps[..n]), steps[n]);
      }
    }
  }

  lemma NoSteps(file: Str, policy: Str)
    requires Healthy(file)
    ensures AlwaysHealthy(Start(file, policy), []) && AlwaysSafe(Start(file, policy), []) && StateOk(file, policy, Start(file, policy), map[])
  {
    hide Healthy;
  }

  /** After such a run, what LoadUsers leaves: the maps of the file exactly when every unwritten edit
      says what the file says, and secrets that lead to users who have them exactly when no unwritten
      edit has changed the secret of a user it led to. */
  lemma LoadAfter(file: Str, policy: Str, steps: seq<Step>)
    requires Healthy(file) && GoodSteps(steps) && Run(Start(file, policy), steps).Some? && AlwaysSafe(Start(file, policy), steps)
    ensures var b := Run(Start(file, policy), steps).value.base;
            var us, was := Entries(Lines(b.file)), Trace(Start(file, policy), steps);
            var kept: map<Str, User> := if b.size == |b.file| then was else map[];
            var (c, ok) := Load(b);
            ok && c.file == b.file && kept.Keys <= MemOf(us).names.Keys
            && (c.mem == MemOf(us) <==> forall n :: n in kept ==> kept[n] == MemOf(us).names[n])
            && (SecretsOk(c.mem) <==> SecretsKept(us, kept))
  {
    hide Healthy, Entries, Lines, MemOf, Load, Run, Trace, AlwaysSafe, BaseOk, SecretsOk, SecretsKept, Holds, GoodUser;
    HealthyIff(file, policy, steps);
    var s, was := Run(Start(file, policy), steps).value, Trace(Start(file, policy), steps);
    if s.held == map[] {
      OpenedOk(file, policy);
    } else {
      HealthyOk(s.base, was);
      SizeFits(s.base, was);
    }
    LoadOk(s.base, was);
    var kept: map<Str, User> := if s.base.size == |s.base.file| then was else map[];
    LoadHolds(Load(s.base).0, kept);
    HoldsExact(Load(s.base).0.mem, Entries(Lines(s.base.file)), kept);
    SecretsIff(Load(s.base).0.mem, Entries(Lines(s.base.file)), kept);
  }

  lemma LoadHolds(b: Base, was: map<Str, User>)
    requires BaseOk(b, was) && b.size == |b.file|
    ensures DistinctUsers(Entries(Lines(b.file))) && Holds(b.mem, Entries(Lines(b.file)), was)
    ensures was.Keys <= MemOf(Entries(Lines(b.file))).names.Keys
  {
    hide MemOf, Entries, Lines, MemOk, Quiet, DistinctUsers;
  }

  /** A request that nobody interrupts does what the model of requests one after the other says. */
  lemma AloneIsCall(s: Server, r: nat, c: Call)
    requires var names := Load(s.base).0.mem.names; forall n :: n in names ==> names[n].name == n
    ensures Run(s, StepsOf(r, c)).Some? || (c.Alter? && c.name !in Load(s.base).0.mem.names)
    ensures Run(s, StepsOf(r, c)).Some? ==> Run(s, StepsOf(r, c)).value.base == After(s.base, c)
  {
    hide Load, Rewritten, Added, NewUser, Accepts, Run;
    RunOne(s, Begin(r));
    match c
    case Reload =>
    case Register(name, mail, mailOk, password, secret, info) =>
      RunTwo(s, Begin(r), SignUp(r, name, mail, mailOk, password, secret, info));
    case Alter(name, mail, secret, tags) =>
      RunTwo(s, Begin(r), Look(r, name));
      RunThree(s, Begin(r), Look(r, name), Change(r, mail, secret, tags));
  }

  lemma RunOne(s: Server, a: Step)
    ensures Run(s, [a]) == if Enabled(s, a) then Some(Next(s, a)) else None
  {
    hide Next, Enabled;
    assert [a][..0] == [];
  }

  lemma RunTwo(s: Server, a: Step, b: Step)
    ensures Run(s, [a, b])
            == if Run(s, [a]).Some? && Enabled(Run(s, [a]).value, b) then Some(Next(Run(s, [a]).value, b)) else None
  {
    hide Next, Enabled;
    assert [a, b][..1] == [a];
  }

  lemma RunThree(s: Server, a: Step, b: Step, c: Step)
    ensures Run(s, [a, b, c])
            == if Run(s, [a, b]).Some? && Enabled(Run(s, [a, b]).value, c) then Some(Next(Run(s, [a, b]).value, c))
               else None
  {
    hide Next, Enabled;
    assert [a, b, c][..2] == [a, b];
  }
}
