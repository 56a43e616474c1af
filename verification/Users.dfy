/** The user file: one line per user, loaded into maps, appended to by Add, rewritten by Edit. */
module Users {
  import opened Bytes
  import T = Tags

  datatype User = User(id: int, name: Str, mail: Str, secret: Str, tags: T.Tags)

  const MAX_INT32 := 0x7fff_ffff
  const MIN_INT32 := -0x8000_0000
  const LOCK: Str := "!lock"
  const STATUS: Str := "status"
  const REMOVE: Str := "remove"
  const NEW: Str := "new"

  predicate IsUsername(u: Str) {
    COLON !in u && NL !in u && CR !in u && '\t' !in u && SLASH !in u
    && 2 < |u| <= 16 && u[0] != ' ' && u[|u| - 1] != ' '
  }

  // ---------------------------------------------------------------- lines

  function Fields(u: User): seq<Str> { [Itoa(u.id), u.name, u.mail, u.secret, T.Print(u.tags)] }

  function UserLine(u: User): Str { Join(Fields(u), COLON) }

  /** What LoadUsers makes of a line; a line of exactly four fields makes it index past the end. */
  datatype Parsed = Skip | LockLine | Panic | Entry(user: User)

  function ParseUser(line: Str): Parsed {
    if LOCK <= line then LockLine
    else
      var a := Split(line, COLON);
      if |a| < 4 then Skip
      else
        var id := ScanInt(a[0]);
        if id.None? || id.value < MIN_INT32 || id.value > MAX_INT32 then Skip
        else if |a| == 4 then Panic
        else
          var tags := T.Parse(a[4]);
          Entry(User(id.value, a[1], a[2], a[3], if tags.None? then T.EMPTY else tags.value))
  }

  ghost predicate FieldOk(s: Str) { Free(s, COLON) && Free(s, NL) }

  /** Users whose line reads back. */
  ghost predicate UserOk(u: User) {
    MIN_INT32 <= u.id <= MAX_INT32 && FieldOk(u.name) && FieldOk(u.mail) && FieldOk(u.secret)
    && T.Canonical(u.tags) && FieldOk(T.Print(u.tags))
  }

  lemma LineParses(u: User)
    requires UserOk(u)
    ensures ParseUser(UserLine(u)) == Entry(u) && Free(UserLine(u), NL)
  {
    hide T.Canonical, T.Print, Itoa, ScanInt, T.Parse, Split, Join;
    ItoaFree(u.id, COLON);
    ItoaFree(u.id, NL);
    SplitJoin(Fields(u), COLON);
    JoinKeepsFree(Fields(u), COLON, NL);
    ScanItoa(u.id);
    T.TagsRoundTrip(u.tags);
    NoLock(u);
  }

  lemma NoLock(u: User)
    ensures !(LOCK <= UserLine(u))
  {
    var ds := Decimal(if u.id < 0 then -u.id else u.id);
    assert IsDigit(ds[0]);
    assert UserLine(u)[0] == Itoa(u.id)[0];
    assert LOCK[0] == '!';
  }

  lemma ParsedOk(line: Str)
    requires Free(line, NL) && ParseUser(line).Entry?
    ensures UserOk(ParseUser(line).user)
  {
    hide T.Canonical, T.Print, T.Parse, ScanInt, Split;
    var a := Split(line, COLON);
    JoinSplit(line, COLON);
    SplitKeepsFree(line, COLON, NL);
    assert FieldOk(a[1]) && FieldOk(a[2]) && FieldOk(a[3]) && FieldOk(a[4]);
    if T.Parse(a[4]).Some? {
      T.ParseCanonical(a[4]);
      T.ParseKeepsFree(a[4], COLON);
      T.ParseKeepsFree(a[4], NL);
    } else {
      EmptyOk();
    }
  }

  lemma EmptyOk()
    ensures T.Canonical(T.EMPTY) && T.Print(T.EMPTY) == []
  {
  }

  // ---------------------------------------------------------------- the loaded maps

  datatype Mem = Mem(names: map<Str, User>, byId: map<int, Str>, secrets: map<Str, Str>, list: seq<Str>)

  const NOBODY := Mem(map[], map[], map[], [])

  function Enter(m: Mem, u: User): Mem {
    Mem(m.names[u.name := u], m.byId[u.id := u.name], m.secrets[u.secret := u.name], m.list + [u.name])
  }

  function MemOf(us: seq<User>): Mem {
    if us == [] then NOBODY else Enter(MemOf(us[..|us| - 1]), us[|us| - 1])
  }

  /** The users of a file, in file order. */
  function Entries(lines: seq<Str>): seq<User> {
    if lines == [] then []
    else
      var p := ParseUser(lines[|lines| - 1]);
      Entries(lines[..|lines| - 1]) + if p.Entry? then [p.user] else []
  }

  predicate NoPanic(lines: seq<Str>) { forall i :: 0 <= i < |lines| ==> !ParseUser(lines[i]).Panic? }

  ghost predicate DistinctUsers(us: seq<User>) {
    forall i, j :: 0 <= i < j < |us| ==> us[i].id != us[j].id && us[i].name != us[j].name
  }

  /** A user file as the program writes it. */
  ghost predicate FileOk(file: Str) {
    Terminated(file) && NoPanic(Lines(file)) && DistinctUsers(Entries(Lines(file)))
  }

  ghost predicate UserIn(m: Mem, u: User) {
    u.name in m.names && m.names[u.name] == u && u.id in m.byId && m.byId[u.id] == u.name
    && u.secret in m.secrets
  }

  ghost predicate SecretsOk(m: Mem) {
    forall s :: s in m.secrets ==> m.secrets[s] in m.names && m.names[m.secrets[s]].secret == s
  }

  ghost predicate NamesListed(m: Mem) { forall n :: n in m.names <==> n in m.list }

  lemma EnterKeeps(m: Mem, u: User)
    requires u.name !in m.names && SecretsOk(m) && NamesListed(m)
    ensures SecretsOk(Enter(m, u)) && NamesListed(Enter(m, u)) && UserIn(Enter(m, u), u)
    ensures forall v :: UserIn(m, v) && v.id != u.id ==> UserIn(Enter(m, u), v)
  {
    assert forall n :: n in m.list + [u.name] <==> n in m.list || n == u.name;
  }

  /** With distinct users the three maps and the list say the same, and every known secret leads
      to a user who has it. */
  lemma {:induction false} MapsAgree(us: seq<User>)
    requires DistinctUsers(us)
    ensures var m := MemOf(us);
            |m.list| == |us| && SecretsOk(m) && NamesListed(m)
            && forall i :: 0 <= i < |us| ==> m.list[i] == us[i].name && UserIn(m, us[i])
  {
    hide Enter, SecretsOk, NamesListed, UserIn;
    if us == [] {
      NobodyAgrees();
    } else {
      var n := |us| - 1;
      MapsAgree(us[..n]);
      var m := MemOf(us[..n]);
      NewName(us, m);
      EnterKeeps(m, us[n]);
      EnterList(m, us[n]);
      forall i | 0 <= i < n ensures UserIn(MemOf(us), us[i]) { assert us[..n][i] == us[i]; }
    }
  }

  lemma NobodyAgrees()
    ensures SecretsOk(NOBODY) && NamesListed(NOBODY)
  {
  }

  lemma EnterList(m: Mem, u: User)
    ensures Enter(m, u).list == m.list + [u.name]
  {
  }

  lemma NewName(us: seq<User>, m: Mem)
    requires us != [] && DistinctUsers(us) && NamesListed(m) && |m.list| == |us| - 1
    requires forall i :: 0 <= i < |us| - 1 ==> m.list[i] == us[..|us| - 1][i].name
    ensures us[|us| - 1].name !in m.names
  {
    var n := |us| - 1;
    forall i | 0 <= i < n ensures m.list[i] != us[n].name { assert us[..n][i] == us[i]; }
  }

  // ---------------------------------------------------------------- the object

  /** Add's choice of id: one past the largest, in 32 bits. */
  ghost predicate IsMaxId(names: map<Str, User>, id: int) {
    id >= 0 && (forall n :: n in names ==> names[n].id <= id)
    && (id == 0 || exists n :: n in names && names[n].id == id)
  }

  function Inc32(id: int): int { if id == MAX_INT32 then MIN_INT32 else id + 1 }

  /** db.Names[n]: the zero user when the name is not loaded, as happens to a user who was added
      and not loaded since. */
  function UserAt(names: map<Str, User>, n: Str): User {
    if n in names then names[n] else User(0, [], [], [], T.EMPTY)
  }

  /** The lines Edit writes: listed users in order, those marked for removal left out. */
  function Kept(names: map<Str, User>, list: seq<Str>): seq<Str> {
    if list == [] then []
    else
      var u := UserAt(names, list[|list| - 1]);
      Kept(names, list[..|list| - 1])
      + if T.Get(u.tags, STATUS) == Some(REMOVE) then [] else [UserLine(u.(name := list[|list| - 1]))]
  }

  lemma NoEntries()
    ensures Entries([]) == [] && MemOf([]) == NOBODY && NoPanic([])
  {
  }

  // ---------------------------------------------------------------- the object as a value

  /** The file, the loaded maps, the size they were loaded at, whether registration is locked, the
      policy file (a missing one is empty) and the size it was read at. */
  datatype Base = Base(file: Str, mem: Mem, size: nat, locked: bool, policy: Str, polSize: nat)

  /** The limit on new users: the last line of the policy without a colon, -1 when there is none. */
  function LimitIn(lines: seq<Str>): int {
    if lines == [] then -1
    else if |Split(lines[|lines| - 1], COLON)| == 1 then Atoi(lines[|lines| - 1])
    else LimitIn(lines[..|lines| - 1])
  }

  /** The limit a load works with: none, unless the size of the policy file has changed since it was
      last read. */
  function LimitAt(policy: Str, polSize: nat): int {
    if polSize == |policy| then -1 else LimitIn(Lines(policy))
  }

  predicate IsNew(u: User) { T.Get(u.tags, STATUS) == Some(NEW) }

  /** Maps, lock, number of new users, and whether the load got to the end. */
  datatype Loaded = Loaded(mem: Mem, locked: bool, count: nat, ok: bool)

  function Counted(r: Loaded, u: User, limit: int): Loaded {
    var count := r.count + if IsNew(u) then 1 else 0;
    r.(mem := Enter(r.mem, u), count := count, locked := r.locked || 0 <= limit <= count)
  }

  /** Reading user lines, stopping where a line makes it index past the end. */
  function LoadLines(lines: seq<Str>, limit: int): Loaded {
    if lines == [] then Loaded(NOBODY, false, 0, true)
    else
      var before := LoadLines(lines[..|lines| - 1], limit);
      if !before.ok then before
      else
        match ParseUser(lines[|lines| - 1])
        case Panic => before.(ok := false)
        case LockLine => before.(locked := true)
        case Skip => before
        case Entry(u) => Counted(before, u, limit)
  }

  /** A freshly opened database. */
  function Opened(file: Str, policy: Str): Base { Base(file, NOBODY, 0, false, policy, 0) }

  /** LoadUsers, and whether it returns normally. */
  function Load(b: Base): (Base, bool) {
    if b.size == |b.file| then (b, true)
    else
      var r := LoadLines(Lines(b.file), LimitAt(b.policy, b.polSize));
      (b.(mem := r.mem, size := if r.ok then |b.file| else b.size, locked := r.locked, polSize := |b.policy|), r.ok)
  }

  lemma {:induction false} MaxIdExists(names: map<Str, User>, keys: set<Str>) returns (id: int)
    requires keys <= names.Keys
    ensures id >= 0 && (forall n :: n in keys ==> names[n].id <= id)
    ensures id == 0 || exists n :: n in keys && names[n].id == id
  {
    id := 0;
    if keys != {} {
      var n :| n in keys;
      id := MaxIdExists(names, keys - {n});
      if names[n].id > id { id := names[n].id; }
    }
  }

  ghost function MaxId(names: map<Str, User>): (id: int)
    ensures IsMaxId(names, id)
  {
    assert exists id :: IsMaxId(names, id) by {
      var id := MaxIdExists(names, names.Keys);
      assert IsMaxId(names, id);
    }
    var id :| IsMaxId(names, id);
    id
  }

  function NewTags(info: Str): T.Tags {
    var t := T.Parse(info);
    if t.None? then T.EMPTY else t.value
  }

  /** Why Add refuses. `mailOk` is the e-mail check, `secret` the hash of name and password. */
  predicate Accepts(b: Base, name: Str, mailOk: bool, password: Str) {
    name !in b.mem.names && IsUsername(name) && |password| >= 1 && mailOk && !b.locked
  }

  ghost function NewUser(b: Base, name: Str, mail: Str, secret: Str, info: Str): User {
    User(Inc32(MaxId(b.mem.names)), name, mail, secret, NewTags(info))
  }

  ghost function Added(b: Base, u: User): Base {
    b.(file := b.file + (UserLine(u) + [NL]), mem := b.mem.(list := b.mem.list + [u.name]))
  }

  /** Edit, and whether it succeeds. */
  function Rewritten(b: Base, u: User): (Base, bool) {
    if u.name !in b.mem.names then (b, false)
    else
      var names := b.mem.names[u.name := u];
      var lines := Kept(names, b.mem.list);
      var c := b.(mem := b.mem.(names := names));
      if lines == [] then (c, false) else (c.(file := Unlines(lines), size := 0), true)
  }

  // ---------------------------------------------------------------- the object

  class UDB {
    var file: Str
    var names: map<Str, User>
    var byId: map<int, Str>
    var secrets: map<Str, Str>
    var list: seq<Str>
    var locked: bool
    var fileSize: nat
    var policy: Str
    var polFileSize: nat

    ghost function Value(): Base reads this {
      Base(file, Mem(names, byId, secrets, list), fileSize, locked, policy, polFileSize)
    }

    constructor (file: Str, policy: Str)
      ensures Value() == Opened(file, policy)
    {
      this.file, names, byId, secrets, list, locked, fileSize := file, map[], map[], map[], [], false, 0;
      this.policy, polFileSize := policy, 0;
    }

    /** loadPolicy, as far as the limit on new users goes. */
    method LoadPolicy() returns (limit: int)
      modifies this`polFileSize
      ensures limit == LimitAt(policy, old(polFileSize)) && polFileSize == |policy|
    {
      hide Split, Lines, Atoi;
      limit := -1;
      if polFileSize == |policy| { return; }
      polFileSize := |policy|;
      var lines := Lines(policy);
      for i := 0 to |lines|
        invariant polFileSize == |policy| && limit == LimitIn(lines[..i])
      {
        assert lines[..i + 1][..i] == lines[..i];
        var a := Split(lines[i], COLON);
        if |a| < 4 {
          if |a| == 1 { limit := Atoi(lines[i]); }
        }
      }
      assert lines[..|lines|] == lines;
    }

    /** LoadUsers: nothing when the size is unchanged, otherwise the maps are built anew. NewUsers and
        NewUsersMax are set by each such load and looked at nowhere else. */
    method LoadUsers() returns (ok: bool)
      modifies this
      ensures (Value(), ok) == Load(old(Value()))
    {
      hide ParseUser, Lines, LoadLines, Enter, LimitAt, IsNew;
      if fileSize == |file| { return true; }
      names, byId, secrets, list, locked := map[], map[], map[], [], false;
      var newUsersMax := LoadPolicy();
      var newUsers := 0;
      var lines := Lines(file);
      NothingLoaded(newUsersMax);
      for i := 0 to |lines|
        invariant file == old(file) && fileSize == old(fileSize) && policy == old(policy) && polFileSize == |policy|
        invariant newUsersMax == LimitAt(policy, old(polFileSize)) && newUsers >= 0
        invariant LoadLines(lines[..i], newUsersMax) == Loaded(Value().mem, locked, newUsers, true)
      {
        LoadStep(lines, newUsersMax, i);
        match ParseUser(lines[i]) {
          case Panic =>
            LoadStops(lines, newUsersMax, i);
            return false;
          case LockLine => locked := true;
          case Skip =>
          case Entry(u) =>
            ghost var m := Value().mem;
            if T.Get(u.tags, STATUS) == Some(NEW) {
              newUsers := newUsers + 1;
            }
            if newUsersMax >= 0 && newUsers >= newUsersMax && !locked {
              locked := true;
            }
            NewIs(u);
            byId := byId[u.id := u.name];
            names := names[u.name := u];
            secrets := secrets[u.secret := u.name];
            list := list + [u.name];
            EnterIs(m, u);
        }
      }
      assert lines[..|lines|] == lines;
      fileSize := |file|;
      return true;
    }

    /** Add: the file and the list grow, the maps are left for the next load. */
    method Add(name: Str, mail: Str, mailOk: bool, password: Str, secret: Str, info: Str) returns (ok: bool)
      modifies this`file, this`list
      ensures ok == Accepts(old(Value()), name, mailOk, password)
      ensures Value() == if ok then Added(old(Value()), NewUser(old(Value()), name, mail, secret, info))
                         else old(Value())
    {
      hide UserLine, IsUsername, T.Parse, MaxId;
      if name in names { return false; }
      if !IsUsername(name) { return false; }
      if |password| < 1 { return false; }
      if !mailOk { return false; }
      if locked { return false; }
      var id := 0;
      var rest := names.Keys;
      while rest != {}
        invariant rest <= names.Keys && id >= 0
        invariant forall n :: n in names && n !in rest ==> names[n].id <= id
        invariant id == 0 || exists n :: n in names && names[n].id == id
        decreases rest
      {
        var n :| n in rest;
        if names[n].id > id {
          id := names[n].id;
        }
        rest := rest - {n};
      }
      MaxIsOne(names, id, MaxId(names));
      var tags := T.MakeTags(info);
      var user := User(Inc32(id), name, mail, secret, if tags.None? then T.EMPTY else tags.value);
      list := list + [name];
      file := file + (UserLine(user) + [NL]);
      return true;
    }

    /** Edit: the file is written again from the list; with nobody left there is no file to move
        into place, and the old one stays. */
    method Edit(u: User) returns (ok: bool)
      modifies this`file, this`names, this`fileSize
      ensures (Value(), ok) == Rewritten(old(Value()), u)
    {
      hide UserLine, Unlines;
      if u.name !in names { return false; }
      names := names[u.name := u];
      var tmp: Option<Str> := None;
      ghost var out: seq<Str> := [];
      NoText();
      for i := 0 to |list|
        invariant names == old(names)[u.name := u] && file == old(file) && fileSize == old(fileSize)
        invariant out == Kept(names, list[..i])
        invariant if out == [] then tmp == None else tmp == Some(Unlines(out))
      {
        assert list[..i + 1][..i] == list[..i];
        var ui := UserAt(names, list[i]);
        if T.Get(ui.tags, STATUS) != Some(REMOVE) {
          var line := UserLine(ui.(name := list[i]));
          OneMoreLine(out, line);
          out := out + [line];
          tmp := Some((if tmp.None? then [] else tmp.value) + (line + [NL]));
        } else {
          assert out + [] == out;
        }
      }
      assert list[..|list|] == list;
      if tmp.None? { return false; }
      file := tmp.value;
      fileSize := 0;
      return true;
    }

    /** UserInfoName. */
    method UserInfoName(name: Str) returns (u: Option<User>)
      ensures u == if name in names then Some(names[name]) else None
    {
      if name in names { return Some(names[name]); }
      return None;
    }

    /** One request, as the callers make it. */
    method Handle(c: Call)
      modifies this
      ensures Value() == After(old(Value()), c)
    {
      hide Load, Rewritten, Added, NewUser;
      var ok := LoadUsers();
      match c {
        case Reload =>
        case Register(name, mail, mailOk, password, secret, info) =>
          ok := Add(name, mail, mailOk, password, secret, info);
        case Alter(name, mail, secret, tags) =>
          var u := UserInfoName(name);
          if u.Some? {
            ok := Edit(User(u.value.id, name, mail, secret, tags));
          }
      }
    }

    method HandleAll(cs: seq<Call>)
      modifies this
      ensures Value() == AfterAll(old(Value()), cs)
    {
      hide After;
      for i := 0 to |cs|
        invariant Value() == AfterAll(old(Value()), cs[..i])
      {
        assert cs[..i + 1][..i] == cs[..i];
        Handle(cs[i]);
      }
      assert cs[..|cs|] == cs;
    }
  }

  /** What the callers do, each time after a LoadUsers: nothing more, register a user, or take a
      user's record by name, change it and edit. */
  datatype Call =
    | Reload
    | Register(name: Str, mail: Str, mailOk: bool, password: Str, secret: Str, info: Str)
    | Alter(name: Str, mail: Str, secret: Str, tags: T.Tags)

  ghost function After(b0: Base, c: Call): Base {
    var b := Load(b0).0;
    match c
    case Reload => b
    case Register(name, mail, mailOk, password, secret, info) =>
      if Accepts(b, name, mailOk, password) then Added(b, NewUser(b, name, mail, secret, info)) else b
    case Alter(name, mail, secret, tags) =>
      if name in b.mem.names then Rewritten(b, User(b.mem.names[name].id, name, mail, secret, tags)).0 else b
  }

  ghost function AfterAll(b: Base, cs: seq<Call>): Base {
    if cs == [] then b else After(AfterAll(b, cs[..|cs| - 1]), cs[|cs| - 1])
  }

  lemma NothingLoaded(limit: int)
    ensures LoadLines([], limit) == Loaded(NOBODY, false, 0, true)
  {
  }

  lemma NewIs(u: User)
    ensures IsNew(u) <==> T.Get(u.tags, STATUS) == Some(NEW)
  {
  }

  lemma EnterIs(m: Mem, u: User)
    ensures Enter(m, u)
            == Mem(m.names[u.name := u], m.byId[u.id := u.name], m.secrets[u.secret := u.name], m.list + [u.name])
  {
  }

  lemma LoadStep(lines: seq<Str>, limit: int, i: nat)
    requires i < |lines| && LoadLines(lines[..i], limit).ok
    ensures var before := LoadLines(lines[..i], limit);
            LoadLines(lines[..i + 1], limit)
            == match ParseUser(lines[i])
               case Panic => before.(ok := false)
               case LockLine => before.(locked := true)
               case Skip => before
               case Entry(u) => Counted(before, u, limit)
  {
    hide ParseUser, Counted;
    assert lines[..i + 1][..i] == lines[..i];
  }

  lemma {:induction false} LoadStops(lines: seq<Str>, limit: int, i: nat)
    requires i < |lines| && LoadLines(lines[..i], limit).ok && !LoadLines(lines[..i + 1], limit).ok
    ensures LoadLines(lines, limit) == LoadLines(lines[..i + 1], limit)
    decreases |lines|
  {
    hide ParseUser, Counted;
    var n := |lines| - 1;
    if i < n {
      assert lines[..n][..i] == lines[..i] && lines[..n][..i + 1] == lines[..i + 1];
      LoadStops(lines[..n], limit, i);
    } else {
      assert lines[..i + 1] == lines;
    }
  }

  lemma MaxIsOne(names: map<Str, User>, a: int, b: int)
    requires IsMaxId(names, a) && IsMaxId(names, b)
    ensures a == b
  {
  }

  lemma NoText()
    ensures Unlines([]) == []
  {
  }

  lemma OneMoreLine(ls: seq<Str>, l: Str)
    ensures Unlines(ls + [l]) == Unlines(ls) + (l + [NL])
  {
    UnlinesAppend(ls, [l]);
    assert [l][1..] == [];
  }

  // ---------------------------------------------------------------- lines and users

  /** A load of lines without a four-field one gives the maps of their users. */
  lemma {:induction false} LoadIsMem(lines: seq<Str>, limit: int)
    ensures LoadLines(lines, limit).ok <==> NoPanic(lines)
    ensures NoPanic(lines) ==> LoadLines(lines, limit).mem == MemOf(Entries(lines))
  {
    hide ParseUser, Enter;
    if lines != [] {
      var n := |lines| - 1;
      LoadIsMem(lines[..n], limit);
      assert lines == lines[..n] + [lines[n]];
      assert NoPanic(lines) <==> NoPanic(lines[..n]) && !ParseUser(lines[n]).Panic?;
      var es, p := Entries(lines[..n]), ParseUser(lines[n]);
      assert es + [] == es;
      if p.Entry? { assert (es + [p.user])[..|es|] == es; }
    }
  }

  lemma {:induction false} EntriesAppend(a: seq<Str>, b: seq<Str>)
    ensures Entries(a + b) == Entries(a) + Entries(b)
  {
    hide ParseUser;
    if b == [] {
      assert a + b == a;
    } else {
      assert (a + b)[..|a + b| - 1] == a + b[..|b| - 1];
      EntriesAppend(a, b[..|b| - 1]);
    }
  }

  lemma OneEntry(u: User)
    requires UserOk(u)
    ensures Entries([UserLine(u)]) == [u] && NoPanic([UserLine(u)])
  {
    hide ParseUser, UserLine;
    LineParses(u);
    assert [UserLine(u)][..0] == [];
  }

  /** The users after an edit: the edited one replaced, those marked for removal dropped. */
  function Edited(us: seq<User>, u: User): seq<User> {
    if us == [] then []
    else
      var v := if us[|us| - 1].name == u.name then u else us[|us| - 1];
      Edited(us[..|us| - 1], u) + if T.Get(v.tags, STATUS) == Some(REMOVE) then [] else [v]
  }

  lemma {:induction false} KeptIsEdited(us: seq<User>, u: User, names: map<Str, User>, list: seq<Str>)
    requires |list| == |us|
    requires forall i :: 0 <= i < |us| ==>
               list[i] == us[i].name && list[i] in names
               && names[list[i]] == (if us[i].name == u.name then u else us[i])
    requires UserOk(u) && forall i :: 0 <= i < |us| ==> UserOk(us[i])
    ensures Entries(Kept(names, list)) == Edited(us, u)
    ensures NoPanic(Kept(names, list)) && AllFree(Kept(names, list), NL)
  {
    hide ParseUser, UserLine, UserOk, Entries;
    if us == [] {
      NoEntries();
    } else {
      var n := |us| - 1;
      KeptIsEdited(us[..n], u, names, list[..n]);
      var v := names[list[n]];
      assert v.(name := list[n]) == v;
      OneEntry(v);
      LineParses(v);
      var k := Kept(names, list[..n]);
      EntriesAppend(k, [UserLine(v)]);
      assert k + [] == k && Edited(us[..n], u) + [] == Edited(us[..n], u);
      assert Kept(names, list) == if T.Get(v.tags, STATUS) == Some(REMOVE) then k else k + [UserLine(v)];
    }
  }

  ghost predicate FromUser(us: seq<User>, v: User) {
    exists j :: 0 <= j < |us| && us[j].id == v.id && us[j].name == v.name
  }

  lemma FromMore(us: seq<User>, v: User)
    requires us != [] && FromUser(us[..|us| - 1], v)
    ensures FromUser(us, v)
    ensures DistinctUsers(us) ==> v.id != us[|us| - 1].id && v.name != us[|us| - 1].name
  {
    var n := |us| - 1;
    var j :| 0 <= j < n && us[..n][j].id == v.id && us[..n][j].name == v.name;
    assert us[j].id == v.id;
  }

  lemma {:induction false} EditedDistinct(us: seq<User>, u: User)
    requires DistinctUsers(us)
    requires forall i :: 0 <= i < |us| && us[i].name == u.name ==> us[i].id == u.id
    ensures DistinctUsers(Edited(us, u))
    ensures forall i :: 0 <= i < |Edited(us, u)| ==> FromUser(us, Edited(us, u)[i])
  {
    hide FromUser;
    if us != [] {
      var n := |us| - 1;
      EditedDistinct(us[..n], u);
      var e := Edited(us[..n], u);
      forall i | 0 <= i < |e|
        ensures e[i].id != us[n].id && e[i].name != us[n].name && FromUser(us, e[i])
      {
        FromMore(us, e[i]);
      }
      LastFrom(us, if us[n].name == u.name then u else us[n]);
    }
  }

  lemma LastFrom(us: seq<User>, v: User)
    requires us != [] && us[|us| - 1].id == v.id && us[|us| - 1].name == v.name
    ensures FromUser(us, v)
  {
  }

  lemma {:induction false} EntriesOk(lines: seq<Str>)
    requires AllFree(lines, NL)
    ensures forall i :: 0 <= i < |Entries(lines)| ==> UserOk(Entries(lines)[i])
  {
    hide ParseUser, UserOk;
    if lines != [] {
      EntriesOk(lines[..|lines| - 1]);
      assert Free(lines[|lines| - 1], NL);
      if ParseUser(lines[|lines| - 1]).Entry? { ParsedOk(lines[|lines| - 1]); }
    }
  }


  // ---------------------------------------------------------------- one call

  /** The names loaded are those of the users in the file, each under the id it has there. */
  ghost predicate Mirrors(m: Mem, us: seq<User>) {
    |m.list| == |us| && NamesListed(m)
    && forall i :: 0 <= i < |us| ==>
         m.list[i] == us[i].name && us[i].name in m.names
         && m.names[us[i].name].name == us[i].name && m.names[us[i].name].id == us[i].id
         && UserOk(m.names[us[i].name])
  }

  /** The next id is free: the largest is not the last 32-bit number, or the first is not taken. */
  ghost predicate Fits(names: map<Str, User>) {
    MaxId(names) < MAX_INT32 || forall n :: n in names ==> names[n].id != MIN_INT32
  }

  /** One more line for one more user. */
  lemma AppendUser(file: Str, u: User)
    requires Terminated(file) && NoPanic(Lines(file)) && UserOk(u)
    ensures var next := file + (UserLine(u) + [NL]);
            Terminated(next) && NoPanic(Lines(next)) && Entries(Lines(next)) == Entries(Lines(file)) + [u]
  {
    hide ParseUser, Entries, Lines, UserLine, UserOk;
    LineParses(u);
    LinesSnoc(file, UserLine(u));
    EntriesAppend(Lines(file), [UserLine(u)]);
    OneEntry(u);
  }

  /** Adding to a file of distinct users: the file gains exactly the new user; it stays one of
      distinct users exactly when the next id is free, and the new id exceeds all others exactly
      when the largest is not the last 32-bit number. */
  lemma AddKeepsFile(file: Str, m: Mem, u: User)
    requires FileOk(file) && Mirrors(m, Entries(Lines(file))) && UserOk(u)
    requires u.name !in m.names && u.id == Inc32(MaxId(m.names))
    ensures var next := file + (UserLine(u) + [NL]); var us := Entries(Lines(file));
            Terminated(next) && NoPanic(Lines(next)) && Entries(Lines(next)) == us + [u]
            && (FileOk(next) <==> Fits(m.names))
            && ((forall i :: 0 <= i < |us| ==> us[i].id < u.id) <==> MaxId(m.names) < MAX_INT32)
  {
    hide ParseUser, Entries, Lines, UserLine, UserOk, MaxId;
    var us := Entries(Lines(file));
    AppendUser(file, u);
    NewIdFree(m, us, u.id);
    DistinctSnoc(us, u);
    forall i | 0 <= i < |us| ensures us[i].name != u.name {}
  }

  lemma DistinctSnoc(us: seq<User>, u: User)
    requires DistinctUsers(us) && forall i :: 0 <= i < |us| ==> us[i].name != u.name
    ensures DistinctUsers(us + [u]) <==> forall i :: 0 <= i < |us| ==> us[i].id != u.id
  {
    var all := us + [u];
    if DistinctUsers(all) {
      forall i | 0 <= i < |us| ensures us[i].id != u.id { assert all[i].id != all[|us|].id; }
    }
  }

  lemma NewIdFree(m: Mem, us: seq<User>, id: int)
    requires Mirrors(m, us) && id == Inc32(MaxId(m.names))
    ensures (forall i :: 0 <= i < |us| ==> us[i].id != id) <==> Fits(m.names)
    ensures (forall i :: 0 <= i < |us| ==> us[i].id < id) <==> MaxId(m.names) < MAX_INT32
  {
    hide UserOk;
    var max := MaxId(m.names);
    forall n | n in m.names ensures exists i :: 0 <= i < |us| && us[i].name == n && us[i].id == m.names[n].id {
      assert n in m.list;
      var i :| 0 <= i < |m.list| && m.list[i] == n;
      assert us[i].name == n;
    }
    if max >= MAX_INT32 {
      var n :| n in m.names && m.names[n].id == max;
      var i :| 0 <= i < |us| && us[i].name == n && us[i].id == m.names[n].id;
      assert UserOk(m.names[us[i].name]);
      MaxIs32(m.names[us[i].name]);
      assert us[i].id == MAX_INT32;
    }
  }

  lemma MaxIs32(u: User)
    requires UserOk(u)
    ensures u.id <= MAX_INT32
  {
  }

  /** The users as loaded, in file order. */
  function Current(m: Mem): (us: seq<User>)
    requires forall n :: n in m.list ==> n in m.names
    ensures |us| == |m.list| && forall i :: 0 <= i < |us| ==> us[i] == m.names[m.list[i]]
  {
    seq(|m.list|, i requires 0 <= i < |m.list| => m.names[m.list[i]])
  }

  /** Editing, id and name kept: the file becomes the loaded users with the edited one replaced and
      those marked for removal dropped, in the same order, still distinct. */
  lemma EditKeepsFile(file: Str, m: Mem, u: User)
    requires FileOk(file) && Mirrors(m, Entries(Lines(file))) && UserOk(u)
    requires u.name in m.names && m.names[u.name].id == u.id
    ensures var next := Unlines(Kept(m.names[u.name := u], m.list));
            FileOk(next) && Entries(Lines(next)) == Edited(Current(m), u)
  {
    hide ParseUser, Entries, Lines, Unlines, UserOk, Kept, Edited;
    var us, vs := Entries(Lines(file)), Current(m);
    var names := m.names[u.name := u];
    forall i, j | 0 <= i < j < |vs| ensures vs[i].id != vs[j].id && vs[i].name != vs[j].name {
      assert us[i].id != us[j].id && us[i].name != us[j].name;
    }
    KeptIsEdited(vs, u, names, m.list);
    EditedDistinct(vs, u);
    LinesUnlines(Kept(names, m.list));
    UnlinesTerminated(Kept(names, m.list));
  }

  // ---------------------------------------------------------------- runs

  /** Names, mails, hashes and tags as the checks before a call let them through. */
  ghost predicate GoodCall(c: Call) {
    match c
    case Reload => true
    case Register(_, mail, _, _, secret, info) => FieldOk(mail) && FieldOk(secret) && FieldOk(info)
    case Alter(name, mail, secret, tags) =>
      FieldOk(mail) && FieldOk(secret) && T.Canonical(tags) && FieldOk(T.Print(tags))
  }

  /** The maps of the file's users, overridden by edits that were not written. */
  ghost predicate Holds(m: Mem, us: seq<User>, unwritten: map<Str, User>) {
    m == MemOf(us).(names := MemOf(us).names + unwritten)
    && unwritten.Keys <= MemOf(us).names.Keys
  }

  /** Edits that keep name and id. */
  ghost predicate Keeping(us: seq<User>, unwritten: map<Str, User>)
    requires unwritten.Keys <= MemOf(us).names.Keys
  {
    forall n :: n in unwritten ==>
      unwritten[n].name == n && unwritten[n].id == MemOf(us).names[n].id && UserOk(unwritten[n])
  }

  /** What every run keeps: a file of distinct users; the size loaded at is never past the file's;
      and when it is the file's, so that LoadUsers will do nothing, the maps are those of the file
      but for the edits that were not written. */
  ghost predicate Sane(b: Base, unwritten: map<Str, User>) {
    FileOk(b.file) && b.size <= |b.file|
    && (b.size == |b.file| ==>
          Holds(b.mem, Entries(Lines(b.file)), unwritten) && Keeping(Entries(Lines(b.file)), unwritten))
  }

  /** The edits in memory that no file holds: a load that rereads forgets them, and so does a call
      after which the next load will; an edit that leaves nobody adds one. */
  ghost function Unwritten(b0: Base, was: map<Str, User>, c: Call): map<Str, User> {
    var b, kept := Load(b0).0, if b0.size == |b0.file| then was else map[];
    match c
    case Reload => kept
    case Register(name, _, mailOk, password, _, _) => if Accepts(b, name, mailOk, password) then map[] else kept
    case Alter(name, mail, secret, tags) =>
      if name !in b.mem.names then kept
      else
        var u := User(b.mem.names[name].id, name, mail, secret, tags);
        if Rewritten(b, u).1 then map[] else kept[name := u]
  }

  ghost function AllUnwritten(b: Base, cs: seq<Call>): map<Str, User> {
    if cs == [] then map[]
    else
      var before := cs[..|cs| - 1];
      Unwritten(AfterAll(b, before), AllUnwritten(b, before), cs[|cs| - 1])
  }

  lemma {:induction false} NameAt(us: seq<User>, n: Str)
    requires n in MemOf(us).names
    ensures MemOf(us).names[n].name == n
    ensures exists i :: 0 <= i < |us| && us[i] == MemOf(us).names[n]
  {
    var k := |us| - 1;
    if us != [] && us[k].name != n {
      NameAt(us[..k], n);
      var i :| 0 <= i < k && us[..k][i] == MemOf(us[..k]).names[n];
      assert us[i] == MemOf(us).names[n];
    }
  }

  lemma HoldsMirrors(m: Mem, us: seq<User>, unwritten: map<Str, User>)
    requires DistinctUsers(us) && Holds(m, us, unwritten) && Keeping(us, unwritten)
    requires forall i :: 0 <= i < |us| ==> UserOk(us[i])
    ensures Mirrors(m, us)
  {
    hide MemOf, UserOk, SecretsOk;
    MapsAgree(us);
    forall i | 0 <= i < |us|
      ensures us[i].name in m.names && m.names[us[i].name].name == us[i].name
              && m.names[us[i].name].id == us[i].id && UserOk(m.names[us[i].name])
    {
      assert UserIn(MemOf(us), us[i]);
    }
  }

  lemma EntriesGood(file: Str)
    ensures forall i :: 0 <= i < |Entries(Lines(file))| ==> UserOk(Entries(Lines(file))[i])
  {
    hide UserOk, Entries, Lines;
    LinesFree(file);
    EntriesOk(Lines(file));
  }

  lemma LoadSane(b: Base, was: map<Str, User>)
    requires Sane(b, was)
    ensures var (c, ok) := Load(b);
            ok && c.file == b.file && c.size == |c.file|
            && Sane(c, if b.size == |b.file| then was else map[])
  {
    hide ParseUser, Entries, Lines, MemOf, UserOk, LoadLines, DistinctUsers;
    LoadIsMem(Lines(b.file), LimitAt(b.policy, b.polSize));
    var us := Entries(Lines(b.file));
    assert MemOf(us).names + map[] == MemOf(us).names;
  }

  lemma SaneMirrors(b: Base, was: map<Str, User>)
    requires Sane(b, was) && b.size == |b.file|
    ensures Mirrors(b.mem, Entries(Lines(b.file)))
  {
    hide Entries, Lines, UserOk, MemOf, Mirrors;
    EntriesGood(b.file);
    HoldsMirrors(b.mem, Entries(Lines(b.file)), was);
  }

  lemma NewUserOk(b: Base, name: Str, mail: Str, secret: Str, info: Str)
    requires IsUsername(name) && FieldOk(mail) && FieldOk(secret) && FieldOk(info)
    requires forall n :: n in b.mem.names ==> b.mem.names[n].id <= MAX_INT32
    ensures UserOk(NewUser(b, name, mail, secret, info))
  {
    hide T.Canonical, T.Print, T.Parse, MaxId;
    if T.Parse(info).Some? {
      T.ParseCanonical(info);
      T.ParseKeepsFree(info, COLON);
      T.ParseKeepsFree(info, NL);
    } else {
      EmptyOk();
    }
    if MaxId(b.mem.names) > 0 {
      var n :| n in b.mem.names && b.mem.names[n].id == MaxId(b.mem.names);
    }
  }

  lemma IdsFit(m: Mem, us: seq<User>)
    requires Mirrors(m, us)
    ensures forall n :: n in m.names ==> n in m.list && m.names[n].name == n && MIN_INT32 <= m.names[n].id <= MAX_INT32
  {
    hide T.Canonical, T.Print;
    forall n | n in m.names ensures m.names[n].name == n && MIN_INT32 <= m.names[n].id <= MAX_INT32 {
      assert n in m.list;
      var i :| 0 <= i < |m.list| && m.list[i] == n;
      assert us[i].name == n && UserOk(m.names[us[i].name]);
    }
  }

  /** A registration that is accepted finds a free id. */
  ghost predicate RoomFor(b0: Base, c: Call) {
    var b := Load(b0).0;
    c.Register? && Accepts(b, c.name, c.mailOk, c.password) ==> Fits(b.mem.names)
  }

  lemma RegisterSane(b: Base, was: map<Str, User>, name: Str, mail: Str, secret: Str, info: Str)
    requires Sane(b, was) && b.size == |b.file| && name !in b.mem.names && Fits(b.mem.names)
    requires IsUsername(name) && FieldOk(mail) && FieldOk(secret) && FieldOk(info)
    ensures Sane(Added(b, NewUser(b, name, mail, secret, info)), map[])
  {
    hide Entries, Lines, UserOk, MemOf, Mirrors, Fits, IsUsername, FieldOk, UserLine, Holds, MaxId, NewTags;
    var u := NewUser(b, name, mail, secret, info);
    SaneMirrors(b, was);
    IdsFit(b.mem, Entries(Lines(b.file)));
    NewUserOk(b, name, mail, secret, info);
    AddKeepsFile(b.file, b.mem, u);
  }

  lemma AlterSane(b: Base, was: map<Str, User>, u: User)
    requires Sane(b, was) && b.size == |b.file| && UserOk(u)
    requires u.name in b.mem.names && b.mem.names[u.name].id == u.id
    ensures Sane(Rewritten(b, u).0, if Rewritten(b, u).1 then map[] else was[u.name := u])
  {
    hide Entries, Lines, UserOk, Mirrors, Kept, Unlines, Edited, FileOk, MemOf;
    var us := Entries(Lines(b.file));
    var r := Rewritten(b, u);
    if r.1 {
      SaneMirrors(b, was);
      EditKeepsFile(b.file, b.mem, u);
      SomeText(Kept(b.mem.names[u.name := u], b.mem.list));
    } else {
      assert (MemOf(us).names + was)[u.name := u] == MemOf(us).names + was[u.name := u];
    }
  }

  lemma SomeText(ls: seq<Str>)
    requires ls != []
    ensures |Unlines(ls)| > 0
  {
  }

  lemma CallSane(b: Base, was: map<Str, User>, c: Call)
    requires Sane(b, was) && GoodCall(c) && RoomFor(b, c)
    ensures Sane(After(b, c), Unwritten(b, was, c))
  {
    hide Sane, Load, Rewritten, FieldOk, Fits, IsUsername, Added, NewUser, T.Canonical, T.Print, IsMaxId;
    var b1, kept := Load(b).0, if b.size == |b.file| then was else map[];
    LoadSane(b, was);
    match c
    case Reload =>
    case Register(name, mail, mailOk, password, secret, info) =>
      if Accepts(b1, name, mailOk, password) {
        RegisterSane(b1, kept, name, mail, secret, info);
      }
    case Alter(name, mail, secret, tags) =>
      if name in b1.mem.names {
        var u := User(b1.mem.names[name].id, name, mail, secret, tags);
        AlteredOk(b1, kept, u);
        AlterSane(b1, kept, u);
      }
  }

  lemma AlteredOk(b: Base, was: map<Str, User>, u: User)
    requires Sane(b, was) && b.size == |b.file| && u.name in b.mem.names && u.id == b.mem.names[u.name].id
    requires FieldOk(u.mail) && FieldOk(u.secret) && T.Canonical(u.tags) && FieldOk(T.Print(u.tags))
    ensures UserOk(u)
  {
    hide Entries, Lines, MemOf, T.Canonical, T.Print;
    SaneMirrors(b, was);
    var us := Entries(Lines(b.file));
    IdsFit(b.mem, us);
    assert u.name in b.mem.list;
    var i :| 0 <= i < |b.mem.list| && b.mem.list[i] == u.name;
    assert UserOk(b.mem.names[us[i].name]);
  }

  ghost predicate RoomLeft(b: Base, cs: seq<Call>) {
    forall i :: 0 <= i < |cs| ==> RoomFor(AfterAll(b, cs[..i]), cs[i])
  }

  lemma OpenedSane(file: Str, policy: Str)
    requires FileOk(file)
    ensures Sane(Opened(file, policy), map[])
  {
    if file == [] {
      NoEntries();
      assert Lines(file) == [];
      assert NOBODY.names + map[] == NOBODY.names;
    }
  }

  lemma {:induction false} RunSane(file: Str, policy: Str, cs: seq<Call>)
    requires FileOk(file) && RoomLeft(Opened(file, policy), cs)
    requires forall i :: 0 <= i < |cs| ==> GoodCall(cs[i])
    ensures Sane(AfterAll(Opened(file, policy), cs), AllUnwritten(Opened(file, policy), cs))
  {
    hide Sane, FileOk, GoodCall, RoomFor, After, Unwritten;
    var b := Opened(file, policy);
    if cs == [] {
      OpenedSane(file, policy);
    } else {
      var n := |cs| - 1;
      forall i | 0 <= i < n ensures RoomFor(AfterAll(b, cs[..n][..i]), cs[..n][i]) {
        assert cs[..n][..i] == cs[..i];
      }
      RunSane(file, policy, cs[..n]);
      CallSane(AfterAll(b, cs[..n]), AllUnwritten(b, cs[..n]), cs[n]);
    }
  }

  /** Maps that hold unwritten edits are those of the file exactly when the edits say the same. */
  lemma HoldsExact(m: Mem, us: seq<User>, unwritten: map<Str, User>)
    requires Holds(m, us, unwritten)
    ensures m == MemOf(us) <==> forall n :: n in unwritten ==> unwritten[n] == MemOf(us).names[n]
  {
    hide MemOf, UserOk;
    var names := MemOf(us).names;
    if forall n :: n in unwritten ==> unwritten[n] == names[n] {
      assert names + unwritten == names;
    } else {
      var n :| n in unwritten && unwritten[n] != names[n];
      assert (names + unwritten)[n] == unwritten[n];
    }
  }

  /** A known secret leads to a user who has it, for all of them, exactly when no unwritten edit has
      changed the secret of a user whose secret in the file leads to that user. */
  ghost predicate SecretsKept(us: seq<User>, unwritten: map<Str, User>)
    requires unwritten.Keys <= MemOf(us).names.Keys
  {
    var m := MemOf(us);
    forall n :: n in unwritten && m.names[n].secret in m.secrets && m.secrets[m.names[n].secret] == n ==>
      unwritten[n].secret == m.names[n].secret
  }

  lemma SecretsIff(m: Mem, us: seq<User>, unwritten: map<Str, User>)
    requires DistinctUsers(us) && Holds(m, us, unwritten)
    ensures SecretsOk(m) <==> SecretsKept(us, unwritten)
  {
    hide MemOf, UserIn, NamesListed;
    MapsAgree(us);
    var f := MemOf(us);
    if SecretsOk(m) {
      forall n | n in unwritten && f.names[n].secret in f.secrets && f.secrets[f.names[n].secret] == n
        ensures unwritten[n].secret == f.names[n].secret
      {
        assert m.names[n] == unwritten[n];
        assert f.names[n].secret in m.secrets;
      }
    }
    if SecretsKept(us, unwritten) {
      forall s | s in m.secrets ensures m.secrets[s] in m.names && m.names[m.secrets[s]].secret == s {
        assert s in f.secrets && f.names[f.secrets[s]].secret == s;
      }
    }
  }

  /** Over any run of requests that do not overlap on one object, its size shortcut and its failed
      edits included: the ids and the names in the file stay pairwise distinct, and LoadUsers always
      returns normally. The maps it leaves are those of the file exactly when every edit that was
      not written is what the file says; every known secret leads to a user who has it exactly when
      no such edit has changed the secret of a user it led to. */
  lemma UsersStayDistinct(file: Str, policy: Str, cs: seq<Call>)
    requires FileOk(file) && RoomLeft(Opened(file, policy), cs)
    requires forall i :: 0 <= i < |cs| ==> GoodCall(cs[i])
    ensures var b := AfterAll(Opened(file, policy), cs);
            var us, unwritten := Entries(Lines(b.file)), AllUnwritten(Opened(file, policy), cs + [Reload]);
            var (r, ok) := Load(b);
            FileOk(b.file) && DistinctUsers(us) && ok && r.file == b.file
            && unwritten.Keys <= MemOf(us).names.Keys
            && (r.mem == MemOf(us) <==> forall n :: n in unwritten ==> unwritten[n] == MemOf(us).names[n])
            && (SecretsOk(r.mem) <==> SecretsKept(us, unwritten)) && NamesListed(r.mem)
  {
    hide Sane, Load, Entries, Lines, MemOf, GoodCall, After, RoomLeft, SecretsOk, NamesListed, DistinctUsers, Holds,
         Unwritten, SecretsKept;
    var b := AfterAll(Opened(file, policy), cs);
    var was := AllUnwritten(Opened(file, policy), cs);
    RunSane(file, policy, cs);
    assert (cs + [Reload])[..|cs|] == cs;
    LoadSane(b, was);
    var kept := if b.size == |b.file| then was else map[];
    ReloadKeeps(b, was);
    SaneHolds(Load(b).0, kept);
    HoldsExact(Load(b).0.mem, Entries(Lines(b.file)), kept);
    SecretsIff(Load(b).0.mem, Entries(Lines(b.file)), kept);
    HoldsListed(Load(b).0.mem, Entries(Lines(b.file)), kept);
  }

  lemma HoldsListed(m: Mem, us: seq<User>, unwritten: map<Str, User>)
    requires DistinctUsers(us) && Holds(m, us, unwritten)
    ensures NamesListed(m)
  {
    hide MemOf, UserIn, SecretsOk;
    MapsAgree(us);
  }

  lemma ReloadKeeps(b: Base, was: map<Str, User>)
    ensures Unwritten(b, was, Reload) == if b.size == |b.file| then was else map[]
  {
  }

  lemma SaneHolds(b: Base, unwritten: map<Str, User>)
    requires Sane(b, unwritten) && b.size == |b.file|
    ensures FileOk(b.file) && DistinctUsers(Entries(Lines(b.file)))
    ensures Holds(b.mem, Entries(Lines(b.file)), unwritten)
    ensures unwritten.Keys <= MemOf(Entries(Lines(b.file))).names.Keys
  {
    hide MemOf, Entries, Lines, UserOk, DistinctUsers;
  }

  lemma OneUserFile(u: User)
    requires UserOk(u)
    ensures var file := UserLine(u) + [NL];
            FileOk(file) && Entries(Lines(file)) == [u] && |file| > 0
  {
    hide ParseUser, UserLine, UserOk;
    LineParses(u);
    LinesOne(UserLine(u));
    OneEntry(u);
  }

  lemma OneUserMem(u: User)
    ensures MemOf([u]) == Mem(map[u.name := u], map[u.id := u.name], map[u.secret := u.name], [u.name])
  {
    assert [u][..0] == [];
  }

  lemma OneCall(b: Base, c: Call)
    ensures AfterAll(b, [c]) == After(b, c)
    ensures AfterAll(b, []) == b
  {
    hide After;
    assert [c][..0] == [];
  }

  /** A file with one user, marked for removal with a new secret: nobody is left, so nothing is
      written; the next LoadUsers finds the size unchanged and does nothing; and the old secret now
      leads to a user who does not have it. */
  lemma RemovingTheLastUser(u: User, policy: Str, secret: Str, tags: T.Tags)
    requires UserOk(u) && FieldOk(secret) && T.Canonical(tags) && FieldOk(T.Print(tags))
    requires secret != u.secret && T.Get(tags, STATUS) == Some(REMOVE)
    ensures var file, c := UserLine(u) + [NL], Alter(u.name, u.mail, secret, tags);
            var b := AfterAll(Opened(file, policy), [c]);
            FileOk(file) && GoodCall(c) && RoomLeft(Opened(file, policy), [c])
            && b.file == file && Load(b) == (b, true)
            && b.mem != MemOf(Entries(Lines(b.file))) && !SecretsOk(b.mem)
  {
    hide ParseUser, UserLine, Entries, Lines, T.Canonical, T.Print, LoadLines, MemOf, Fits;
    var file, c := UserLine(u) + [NL], Alter(u.name, u.mail, secret, tags);
    OneUserFile(u);
    OneUserMem(u);
    var b0 := Opened(file, policy);
    LoadIsMem(Lines(file), LimitAt(policy, 0));
    var b1 := Load(b0).0;
    assert b1.mem == MemOf([u]) && b1.size == |file|;
    var v := User(u.id, u.name, u.mail, secret, tags);
    assert [u.name][..0] == [];
    assert Kept(b1.mem.names[u.name := v], [u.name]) == [];
    OneCall(b0, c);
    var b := AfterAll(b0, [c]);
    assert b == Rewritten(b1, v).0;
    assert b.mem.names[u.name] == v && b.mem.secrets[u.secret] == u.name;
  }

  // ---------------------------------------------------------------- the limit on new users

  predicate HasLock(lines: seq<Str>) { exists i :: 0 <= i < |lines| && "!lock" <= lines[i] }

  function NewCount(us: seq<User>): nat {
    if us == [] then 0
    else
      var tags := us[|us| - 1].tags.hash;
      NewCount(us[..|us| - 1]) + if "status" in tags && tags["status"] == "new" then 1 else 0
  }

  lemma NewSnoc(us: seq<User>, u: User)
    ensures NewCount([]) == 0 && NewCount(us + [u]) == NewCount(us) + if IsNew(u) then 1 else 0
  {
    assert (us + [u])[..|us|] == us;
  }

  /** As many new users as the policy allows; no limit is a negative one. */
  predicate Full(limit: int, us: seq<User>) { us != [] && 0 <= limit <= NewCount(us) }

  /** A load leaves registration locked exactly when the file says so or the limit it works with is
      reached. */
  lemma {:induction false} LockedIff(lines: seq<Str>, limit: int)
    requires NoPanic(lines)
    ensures LoadLines(lines, limit).locked <==> HasLock(lines) || Full(limit, Entries(lines))
    ensures LoadLines(lines, limit).count == NewCount(Entries(lines))
  {
    hide ParseUser, Enter, IsNew, HasLock, Full, NewCount, MemOf, Counted;
    LoadIsMem(lines, limit);
    if lines == [] {
      NoLockLine(limit);
    } else {
      var n := |lines| - 1;
      LockedIff(lines[..n], limit);
      LockSnoc(lines);
      var es, p := Entries(lines[..n]), ParseUser(lines[n]);
      assert es + [] == es;
      if p.Entry? { OneMoreNew(LoadLines(lines[..n], limit), es, p.user, limit); }
    }
  }

  lemma OneMoreNew(r: Loaded, us: seq<User>, u: User, limit: int)
    requires r.count == NewCount(us)
    ensures var c := Counted(r, u, limit);
            c.count == NewCount(us + [u]) && (c.locked <==> r.locked || Full(limit, us + [u]))
            && (Full(limit, us) ==> Full(limit, us + [u])) && c.ok == r.ok
  {
    hide Enter;
    assert (us + [u])[..|us|] == us;
  }

  lemma NoLockLine(limit: int)
    ensures !HasLock([]) && !Full(limit, []) && NewCount([]) == 0
  {
  }

  lemma LockSnoc(lines: seq<Str>)
    requires lines != []
    ensures HasLock(lines) <==> HasLock(lines[..|lines| - 1]) || ParseUser(lines[|lines| - 1]).LockLine?
  {
    hide Split, ScanInt, T.Parse;
    var n := |lines| - 1;
    if HasLock(lines[..n]) {
      var i :| 0 <= i < n && LOCK <= lines[..n][i];
      assert LOCK <= lines[i];
    }
    if HasLock(lines) {
      var i :| 0 <= i < |lines| && LOCK <= lines[i];
      assert i < n ==> LOCK <= lines[..n][i];
    }
  }

  /** How often a run has read the file anew. */
  ghost function Rereads(b: Base, cs: seq<Call>): nat {
    if cs == [] then 0
    else
      var before := AfterAll(b, cs[..|cs| - 1]);
      Rereads(b, cs[..|cs| - 1]) + if before.size == |before.file| then 0 else 1
  }

  /** The limit that the last of n loads worked with: only the first one knows it. */
  function LimitOf(policy: Str, n: nat): int { if n == 1 then LimitIn(Lines(policy)) else -1 }

  /** What a run keeps: the policy is read by the first load that reads the file; and while the
      size loaded at is the file's, registration is locked as that load left it. */
  ghost predicate LockKept(b: Base, policy: Str, n: nat) {
    b.policy == policy && b.polSize == (if n == 0 then 0 else |policy|)
    && (b.size == |b.file| ==>
          (b.locked <==> HasLock(Lines(b.file)) || Full(LimitOf(policy, n), Entries(Lines(b.file)))))
  }

  lemma NoPolicy()
    ensures LimitIn(Lines([])) == -1
  {
    assert Lines([]) == [];
  }

  lemma LoadKeepsLock(b: Base, was: map<Str, User>, policy: Str, n: nat)
    requires Sane(b, was) && LockKept(b, policy, n)
    ensures LockKept(Load(b).0, policy, n + if b.size == |b.file| then 0 else 1)
  {
    hide ParseUser, Entries, Lines, MemOf, LoadLines, HasLock, Full, LimitIn, Holds, Keeping, DistinctUsers;
    if b.size != |b.file| {
      LoadIsMem(Lines(b.file), LimitAt(policy, b.polSize));
      LockedIff(Lines(b.file), LimitAt(policy, b.polSize));
      NoPolicy();
      assert |policy| == 0 ==> policy == [];
    }
  }

  lemma CallKeepsLock(b: Base, was: map<Str, User>, c: Call, policy: Str, n: nat)
    requires Sane(b, was) && GoodCall(c) && LockKept(b, policy, n)
    ensures LockKept(After(b, c), policy, n + if b.size == |b.file| then 0 else 1)
  {
    hide Sane, Load, Accepts, NewUser, UserLine, Entries, Lines, HasLock, Full, LimitOf, Kept, T.Canonical, T.Print, FieldOk;
    LoadSane(b, was);
    LoadKeepsLock(b, was, policy, n);
    if c.Alter? && c.name in Load(b).0.mem.names {
      var m, u := Load(b).0.mem, User(Load(b).0.mem.names[c.name].id, c.name, c.mail, c.secret, c.tags);
      var lines := Kept(m.names[u.name := u], m.list);
      if lines != [] { SomeText(lines); }
    }
  }

  lemma {:induction false} RunKeepsLock(file: Str, policy: Str, cs: seq<Call>)
    requires FileOk(file) && RoomLeft(Opened(file, policy), cs)
    requires forall i :: 0 <= i < |cs| ==> GoodCall(cs[i])
    ensures LockKept(AfterAll(Opened(file, policy), cs), policy, Rereads(Opened(file, policy), cs))
  {
    hide Sane, FileOk, GoodCall, RoomFor, After, Unwritten, LockKept;
    var b := Opened(file, policy);
    if cs == [] {
      NothingLocked(file, policy);
    } else {
      var n := |cs| - 1;
      forall i | 0 <= i < n ensures RoomFor(AfterAll(b, cs[..n][..i]), cs[..n][i]) {
        assert cs[..n][..i] == cs[..i];
      }
      RunKeepsLock(file, policy, cs[..n]);
      RunSane(file, policy, cs[..n]);
      CallKeepsLock(AfterAll(b, cs[..n]), AllUnwritten(b, cs[..n]), cs[n], policy, Rereads(b, cs[..n]));
    }
  }

  lemma NothingLocked(file: Str, policy: Str)
    ensures LockKept(Opened(file, policy), policy, 0)
  {
    NoEntries();
    if file == [] { assert Lines(file) == []; }
  }

  /** The limit on new users counts in the first load that reads the file, and in no other: after
      any run and a LoadUsers, registration is locked exactly when the file has a lock line, or the
      file was read once and holds as many new users as the policy allows. */
  lemma LimitHoldsIff(file: Str, policy: Str, cs: seq<Call>)
    requires FileOk(file) && RoomLeft(Opened(file, policy), cs)
    requires forall i :: 0 <= i < |cs| ==> GoodCall(cs[i])
    ensures var b, n := AfterAll(Opened(file, policy), cs), Rereads(Opened(file, policy), cs + [Reload]);
            Load(b).0.locked <==>
              HasLock(Lines(b.file)) || (n == 1 && Full(LimitIn(Lines(policy)), Entries(Lines(b.file))))
  {
    hide Sane, Load, Entries, Lines, GoodCall, After, RoomLeft, HasLock, NewCount, LimitIn, Unwritten;
    var b0 := Opened(file, policy);
    var b, was := AfterAll(b0, cs), AllUnwritten(b0, cs);
    RunSane(file, policy, cs);
    RunKeepsLock(file, policy, cs);
    assert (cs + [Reload])[..|cs|] == cs;
    LoadSane(b, was);
    LoadKeepsLock(b, was, policy, Rereads(b0, cs));
  }

  // ---------------------------------------------------------------- lines, field by field

  /** The line of a user: id, name, mail, secret and tags between colons. */
  lemma UserLineTells(u: User)
    ensures UserLine(u) == Itoa(u.id) + [':'] + (u.name + [':'] + (u.mail + [':'] + (u.secret + [':'] + T.Print(u.tags))))
  {
    hide T.Print, Itoa;
    var f := Fields(u);
    assert f[1..][1..] == f[2..] && f[2..][1..] == f[3..] && f[3..][1..] == f[4..];
    assert Join(f[4..], COLON) == f[4];
    assert Join(f[3..], COLON) == f[3] + [COLON] + f[4];
    assert Join(f[2..], COLON) == f[2] + [COLON] + Join(f[3..], COLON);
    assert Join(f[1..], COLON) == f[1] + [COLON] + Join(f[2..], COLON);
  }

  /** What a load makes of a line. Lines that start with "!lock" lock; of the others, those with fewer than
      four parts or without a 32-bit number in front are passed over, those with exactly four end the
      load, and the rest are users, read off their first five parts. */
  lemma ParseTells(line: Str)
    ensures var a, p := Split(line, ':'), ParseUser(line);
            (p.LockLine? <==> "!lock" <= line)
            && (!("!lock" <= line) ==>
                  (if |a| < 4 || ScanInt(a[0]).None? || ScanInt(a[0]).value < -2147483648 || ScanInt(a[0]).value > 2147483647
                   then p.Skip?
                   else if |a| == 4 then p.Panic?
                   else p.Entry? && p.user.id == ScanInt(a[0]).value && p.user.name == a[1] && p.user.mail == a[2]
                        && p.user.secret == a[3]
                        && p.user.tags == (if T.Parse(a[4]).Some? then T.Parse(a[4]).value else T.Tags([], map[]))))
  {
    hide Split, ScanInt, T.Parse;
  }

  /** The users of a file are those of its lines, in order. */
  lemma EntriesTell(lines: seq<Str>, line: Str)
    ensures Entries(lines + [line]) == Entries(lines) + if ParseUser(line).Entry? then [ParseUser(line).user] else []
    ensures Entries([]) == []
  {
    hide ParseUser;
    assert (lines + [line])[..|lines|] == lines;
  }

  function IdOf(u: User): int { u.id }
  function NameOf(u: User): Str { u.name }
  function SecretOf(u: User): Str { u.secret }
  function Itself(u: User): User { u }

  ghost predicate NoneAfter<K>(us: seq<User>, key: User -> K, i: nat)
    requires i < |us|
  {
    forall j :: i < j < |us| ==> key(us[j]) != key(us[i])
  }

  /** A map from the keys of some users: each key leads to the last user who has it, and nothing else is in
      the map. */
  ghost predicate LeadsToLast<K(!new), V>(us: seq<User>, key: User -> K, value: User -> V, m: map<K, V>) {
    && (forall i :: 0 <= i < |us| && NoneAfter(us, key, i) ==> key(us[i]) in m && m[key(us[i])] == value(us[i]))
    && (forall k :: k in m ==> exists i :: 0 <= i < |us| && key(us[i]) == k)
  }

  /** The maps of some users: the list has all names in order; a name leads to the last user who has it,
      an id and a secret to the name of the last one. Nothing else is in the maps. */
  lemma {:induction false} MemTells(us: seq<User>)
    ensures var m := MemOf(us);
            && |m.list| == |us| && (forall i :: 0 <= i < |us| ==> m.list[i] == us[i].name)
            && LeadsToLast(us, NameOf, Itself, m.names)
            && LeadsToLast(us, IdOf, NameOf, m.byId)
            && LeadsToLast(us, SecretOf, NameOf, m.secrets)
  {
    hide LeadsToLast;
    if us == [] {
      LeadsNowhere(NameOf, Itself);
      LeadsNowhere(IdOf, NameOf);
      LeadsNowhere(SecretOf, NameOf);
    } else {
      var n := |us| - 1;
      MemTells(us[..n]);
      var m := MemOf(us[..n]);
      LeadsFurther(us, NameOf, Itself, m.names);
      LeadsFurther(us, IdOf, NameOf, m.byId);
      LeadsFurther(us, SecretOf, NameOf, m.secrets);
    }
  }

  lemma LeadsNowhere<K(!new), V>(key: User -> K, value: User -> V)
    ensures LeadsToLast([], key, value, map[])
  {
  }

  lemma LeadsFurther<K(!new), V>(us: seq<User>, key: User -> K, value: User -> V, m: map<K, V>)
    requires us != [] && LeadsToLast(us[..|us| - 1], key, value, m)
    ensures LeadsToLast(us, key, value, m[key(us[|us| - 1]) := value(us[|us| - 1])])
  {
    hide NoneAfter;
    var n := |us| - 1;
    var e := us[..n];
    var l := us[n];
    var w := m[key(l) := value(l)];
    forall i | 0 <= i < |us| && NoneAfter(us, key, i) ensures key(us[i]) in w && w[key(us[i])] == value(us[i]) {
      if i < n {
        NoneAfterShorter(us, key, i);
        assert e[i] == us[i];
      }
    }
    forall k | k in w ensures exists i :: 0 <= i < |us| && key(us[i]) == k {
      if k == key(l) {
        assert key(us[n]) == k;
      } else {
        var i :| 0 <= i < |e| && key(e[i]) == k;
        assert key(us[i]) == k;
      }
    }
  }

  lemma NoneAfterShorter<K>(us: seq<User>, key: User -> K, i: nat)
    requires i < |us| - 1 && NoneAfter(us, key, i)
    ensures NoneAfter(us[..|us| - 1], key, i) && key(us[i]) != key(us[|us| - 1])
  {
    var e := us[..|us| - 1];
    forall j | i < j < |e| ensures key(e[j]) != key(e[i]) {
      assert e[j] == us[j] && e[i] == us[i];
    }
  }

  // ---------------------------------------------------------------- calls, field by field

  /** A registration on a loaded database: it is accepted exactly for a new name of three to sixteen bytes
      without colon, line break, tab or slash and without a blank at either end, with a password, a mail
      that passes its check, and an unlocked file. Then the file gains one line, with the id after the
      largest in use, and the name is listed; the maps stay as they are. */
  lemma RegisterTells(b: Base, name: Str, mail: Str, mailOk: bool, password: Str, secret: Str, info: Str)
    requires b.size == |b.file|
    ensures var c := After(b, Register(name, mail, mailOk, password, secret, info));
            if name !in b.mem.names && 3 <= |name| <= 16
               && ':' !in name && '\n' !in name && '\r' !in name && '\t' !in name && '/' !in name
               && name[0] != ' ' && name[|name| - 1] != ' '
               && password != "" && mailOk && !b.locked
            then exists top: int, t: T.Tags ::
                   IsLargest(b.mem.names, top) && (if T.Parse(info).Some? then T.Parse(info) == Some(t) else t == T.Tags([], map[]))
                   && c.file == b.file + (Itoa(if top == 2147483647 then -2147483648 else top + 1) + [':']
                                + (name + [':'] + (mail + [':'] + (secret + [':'] + T.Print(t)))) + ['\n'])
                   && c == b.(file := c.file, mem := b.mem.(list := b.mem.list + [name]))
            else c == b
  {
    hide Itoa, T.Print, T.Parse, MaxId, UserLine;
    var u := NewUser(b, name, mail, secret, info);
    UserLineTells(u);
    MaxLargest(b.mem.names);
    assert IsLargest(b.mem.names, MaxId(b.mem.names));
  }

  /** The largest id in use, or 0 when none is positive. */
  ghost predicate IsLargest(names: map<Str, User>, top: int) {
    top >= 0 && (forall n :: n in names ==> names[n].id <= top) && (top == 0 || exists n :: n in names && names[n].id == top)
  }

  lemma MaxLargest(names: map<Str, User>)
    ensures IsLargest(names, MaxId(names))
  {
  }

  /** The line of one listed name: none for a user marked for removal; a name that is not loaded is written
      with id 0 and nothing else. */
  function OneKept(names: map<Str, User>, n: Str): seq<Str> {
    var u := if n in names then names[n] else User(0, [], [], [], T.Tags([], map[]));
    if "status" in u.tags.hash && u.tags.hash["status"] == "remove" then []
    else [Itoa(u.id) + [':'] + (n + [':'] + (u.mail + [':'] + (u.secret + [':'] + T.Print(u.tags))))]
  }

  function AllKept(names: map<Str, User>, list: seq<Str>): seq<Str> {
    if list == [] then [] else OneKept(names, list[0]) + AllKept(names, list[1..])
  }

  lemma {:induction false} KeptTells(names: map<Str, User>, a: seq<Str>, b: seq<Str>)
    ensures Kept(names, a + b) == Kept(names, a) + AllKept(names, b)
    decreases |b|
  {
    hide Itoa, T.Print, OneKept;
    if b == [] {
      assert a + b == a;
    } else {
      var n := b[0];
      assert (a + [n])[..|a|] == a;
      assert a + b == a + [n] + b[1..];
      KeptTells(names, a + [n], b[1..]);
      KeptOne(names, a, n);
    }
  }

  lemma KeptOne(names: map<Str, User>, a: seq<Str>, n: Str)
    ensures Kept(names, a + [n]) == Kept(names, a) + OneKept(names, n)
  {
    hide Itoa, T.Print, UserLine;
    assert (a + [n])[..|a|] == a;
    UserLineTells(UserAt(names, n).(name := n));
  }

  /** An edit of a loaded user, on a loaded database: the record is replaced, its id kept, and the file is
      written anew from the list, one line for each name in order but for those marked for removal, and
      is to be read again; when no line is left, the file stays as it was. */
  lemma AlterTells(b: Base, name: Str, mail: Str, secret: Str, tags: T.Tags)
    requires b.size == |b.file|
    ensures var c := After(b, Alter(name, mail, secret, tags));
            if name !in b.mem.names then c == b
            else
              var names := b.mem.names[name := User(b.mem.names[name].id, name, mail, secret, tags)];
              var lines := AllKept(names, b.mem.list);
              c == (if lines == [] then b.(mem := b.mem.(names := names))
                    else b.(mem := b.mem.(names := names), file := Unlines(lines), size := 0))
  {
    hide Kept, AllKept, Unlines;
    if name in b.mem.names {
      var none: seq<Str> := [];
      KeptTells(b.mem.names[name := User(b.mem.names[name].id, name, mail, secret, tags)], none, b.mem.list);
      assert none + b.mem.list == b.mem.list;
      NothingKept(b.mem.names[name := User(b.mem.names[name].id, name, mail, secret, tags)]);
    }
  }

  lemma NothingKept(names: map<Str, User>)
    ensures Kept(names, []) == [] && forall s: seq<Str> :: [] + s == s
  {
  }

  /** The limit of a policy: the number on its last line without a colon; none when there is no such line. */
  lemma {:induction false} LimitTells(lines: seq<Str>)
    ensures (forall i :: 0 <= i < |lines| ==> ':' in lines[i]) ==> LimitIn(lines) == -1
    ensures forall i :: 0 <= i < |lines| && ':' !in lines[i] && (forall j :: i < j < |lines| ==> ':' in lines[j]) ==>
              LimitIn(lines) == Atoi(lines[i])
  {
    hide Atoi, Split;
    if lines != [] {
      var n := |lines| - 1;
      LimitTells(lines[..n]);
      NoColonOnePart(lines[n]);
      if ':' in lines[n] {
        assert forall i :: 0 <= i < n ==> lines[..n][i] == lines[i];
      }
    }
  }

  lemma NoColonOnePart(s: Str)
    ensures |Split(s, ':')| == 1 <==> ':' !in s
  {
    hide Split;
    JoinSplit(s, ':');
    assert |Split(s, ':')| == 1 ==> Free(Split(s, ':')[0], ':') && s == Split(s, ':')[0];
    if ':' !in s { SplitFree(s, ':'); }
  }
}
