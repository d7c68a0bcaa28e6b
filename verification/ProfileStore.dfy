/**
 The agent profile store: a sorted map in memory and the file that should agree with it. The file
 format is a faithful codec, so a file is the list of profiles it holds; whether a write reaches
 the disk is a parameter of each operation, since it may fail.
 */
module ProfileStore {
  import opened AgentProfiles
  import opened SortedMap
  import opened Text
  import opened Wrappers

  type Profiles = map<string, Profile>

  datatype File = Missing | Unreadable | Malformed | Contents(profiles: seq<Profile>)

  datatype State = State(profiles: Profiles, file: File)

  // ----- reading the file

  /** Collecting stops at the first profile that is refused; a repeated id keeps the last profile. */
  function Collect(check: Profile -> Result<(), StoreError>, ps: seq<Profile>): Result<Profiles, StoreError> {
    if ps == [] then Ok(map[])
    else match Collect(check, ps[..|ps| - 1])
      case Err(e) => Err(e)
      case Ok(m) =>
        var last := ps[|ps| - 1];
        match check(last)
        case Err(e) => Err(e)
        case Ok(_) => Ok(m[last.id := last])
  }

  function ReadProfiles(file: File): Result<Profiles, StoreError> {
    match file
    case Missing => Ok(map[])
    case Unreadable => Err(Io)
    case Malformed => Err(Json)
    case Contents(ps) => Collect(CheckStored, ps)
  }

  /** Every profile is filed under its own id and would be accepted when read back. */
  ghost predicate Accepted(m: Profiles) {
    AcceptedBy(CheckStored, m)
  }

  ghost predicate AcceptedBy(check: Profile -> Result<(), StoreError>, m: Profiles) {
    forall id :: id in m ==> m[id].id == id && check(m[id]).Ok?
  }

  ghost predicate NamesDistinct(m: Profiles) {
    forall i, j :: i in m && j in m && i != j ==> m[i].name != m[j].name
  }

  lemma {:induction false} CollectedAccepted(check: Profile -> Result<(), StoreError>, ps: seq<Profile>)
    requires Collect(check, ps).Ok?
    ensures AcceptedBy(check, Collect(check, ps).value)
  {
    if ps != [] {
      CollectedAccepted(check, ps[..|ps| - 1]);
    }
  }

  lemma LoadedAccepted(file: File)
    requires ReadProfiles(file).Ok?
    ensures Accepted(ReadProfiles(file).value)
  {
    if file.Contents? {
      CollectedAccepted(CheckStored, file.profiles);
    }
  }

  /** This profile is the last in the file with its id. */
  ghost predicate LastWithId(ps: seq<Profile>, i: nat) {
    i < |ps| && forall j :: i < j < |ps| ==> ps[j].id != ps[i].id
  }

  /** What collecting gives: under each id that occurs the last profile that has it. */
  ghost predicate KeepsLast(ps: seq<Profile>, m: Profiles) {
    && (forall i :: 0 <= i < |ps| ==> ps[i].id in m)
    && (forall id :: id in m ==> exists i: nat :: LastWithId(ps, i) && ps[i].id == id && m[id] == ps[i])
  }

  lemma {:induction false} CollectOkIff(check: Profile -> Result<(), StoreError>, ps: seq<Profile>)
    ensures Collect(check, ps).Ok? <==> forall i :: 0 <= i < |ps| ==> check(ps[i]).Ok?
  {
    if ps != [] {
      var n := |ps| - 1;
      CollectOkIff(check, ps[..n]);
      assert ps == ps[..n] + [ps[n]];
    }
  }

  lemma {:induction false} CollectKeepsLast(check: Profile -> Result<(), StoreError>, ps: seq<Profile>)
    requires Collect(check, ps).Ok?
    ensures KeepsLast(ps, Collect(check, ps).value)
  {
    if ps != [] {
      CollectKeepsLast(check, ps[..|ps| - 1]);
      OneMoreKeepsLast(ps, Collect(check, ps[..|ps| - 1]).value);
    }
  }

  lemma OneMoreKeepsLast(ps: seq<Profile>, m: Profiles)
    requires ps != [] && KeepsLast(ps[..|ps| - 1], m)
    ensures KeepsLast(ps, m[ps[|ps| - 1].id := ps[|ps| - 1]])
  {
    var n := |ps| - 1;
    var more := m[ps[n].id := ps[n]];
    forall i | 0 <= i < |ps| ensures ps[i].id in more {
      assert i < n ==> ps[..n][i] == ps[i];
    }
    forall id | id in more ensures exists i: nat :: LastWithId(ps, i) && ps[i].id == id && more[id] == ps[i] {
      if id == ps[n].id {
        assert LastWithId(ps, n);
      } else {
        var i: nat :| LastWithId(ps[..n], i) && ps[..n][i].id == id && m[id] == ps[..n][i];
        forall j | i < j < |ps| ensures ps[j].id != ps[i].id {
          assert j < n ==> ps[..n][j] == ps[j];
        }
        assert LastWithId(ps, i);
      }
    }
  }

  /** A file reads exactly if each profile in it is accepted, and of profiles with one id the last counts. */
  lemma LoadIff(ps: seq<Profile>)
    ensures ReadProfiles(Contents(ps)).Ok? <==> forall i :: 0 <= i < |ps| ==> CheckStored(ps[i]).Ok?
    ensures ReadProfiles(Contents(ps)).Ok? ==> KeepsLast(ps, ReadProfiles(Contents(ps)).value)
  {
    CollectOkIff(CheckStored, ps);
    if Collect(CheckStored, ps).Ok? {
      CollectKeepsLast(CheckStored, ps);
    }
  }

  function Restrict(m: Profiles, keys: seq<string>): Profiles {
    map id | id in m && id in keys :: m[id]
  }

  lemma RestrictOneMore(m: Profiles, keys: seq<string>)
    requires keys != [] && keys[|keys| - 1] in m
    ensures var k := keys[|keys| - 1]; Restrict(m, keys) == Restrict(m, keys[..|keys| - 1])[k := m[k]]
  {
    assert keys == keys[..|keys| - 1] + [keys[|keys| - 1]];
  }

  lemma {:induction false} CollectLookup(check: Profile -> Result<(), StoreError>, m: Profiles, keys: seq<string>)
    requires AcceptedBy(check, m) && forall k :: k in keys ==> k in m
    ensures Collect(check, Lookup(m, keys)) == Ok(Restrict(m, keys))
  {
    if keys == [] {
      assert Restrict(m, keys) == map[];
    } else {
      var front, k := keys[..|keys| - 1], keys[|keys| - 1];
      CollectLookup(check, m, front);
      RestrictOneMore(m, keys);
      assert Lookup(m, keys)[..|keys| - 1] == Lookup(m, front);
    }
  }

  lemma RestrictToAll(m: Profiles)
    ensures Restrict(m, KeysInOrder(m.Keys)) == m
  {
  }

  lemma CollectUndoesValues(check: Profile -> Result<(), StoreError>, m: Profiles)
    requires AcceptedBy(check, m)
    ensures Collect(check, Values(m)) == Ok(m)
  {
    RestrictToAll(m);
    CollectLookup(check, m, KeysInOrder(m.Keys));
  }

  /** Writing the map and reading it back gives the map. */
  lemma ReadUndoesWrite(m: Profiles)
    requires Accepted(m)
    ensures ReadProfiles(Contents(Values(m))) == Ok(m)
  {
    CollectUndoesValues(CheckStored, m);
  }

  // ----- the operations

  predicate NameTaken(m: Profiles, allowed: Option<string>, name: string) {
    exists id :: id in m && Some(id) != allowed && m[id].name == name
  }

  /** write_profiles: the new file appears whole, or the old one stays. */
  function AfterWrite(m: Profiles, file: File, writes: bool): (State, Result<(), StoreError>) {
    if writes then (State(m, Contents(Values(m))), Ok(())) else (State(m, file), Err(Io))
  }

  function AfterInsert(s: State, p: Profile, writes: bool): (State, Result<Profile, StoreError>) {
    var (next, written) := AfterWrite(s.profiles[p.id := p], s.file, writes);
    (next, if written.Ok? then Ok(p) else Err(written.error))
  }

  /** What a request becomes before the store is consulted. */
  function Prepare(id: string, request: Request): (r: Result<Profile, StoreError>)
    ensures r.Err? ==> r.error.Validation?
  {
    match Normalize(id, request)
    case Err(e) => Err(e)
    case Ok(p) => if CheckConfig(p).Err? then Err(CheckConfig(p).error) else Ok(p)
  }

  function AfterUpsert(s: State, id: string, request: Request, writes: bool): (State, Result<Profile, StoreError>) {
    if CheckId(id).Err? then (s, Err(CheckId(id).error))
    else match Prepare(id, request)
      case Err(e) => (s, Err(e))
      case Ok(p) =>
        if NameTaken(s.profiles, Some(id), p.name) then (s, Err(Validation(DuplicateName)))
        else AfterInsert(s, p, writes)
  }

  /** The first of the generated ids that is not in use. */
  function FirstUnused(m: Profiles, ids: seq<string>): (id: string)
    requires exists i :: 0 <= i < |ids| && ids[i] !in m
    ensures exists n :: 0 <= n < |ids| && ids[n] == id && id !in m && forall k :: 0 <= k < n ==> ids[k] in m
  {
    if ids[0] !in m then ids[0] else FirstUnused(m, ids[1..])
  }

  function AfterCreate(s: State, request: Request, ids: seq<string>, writes: bool): (State, Result<Profile, StoreError>)
    requires exists i :: 0 <= i < |ids| && ids[i] !in s.profiles
  {
    match Prepare("profile-pending", request)
    case Err(e) => (s, Err(e))
    case Ok(p) =>
      if NameTaken(s.profiles, None, p.name) then (s, Err(Validation(DuplicateName)))
      else AfterInsert(s, p.(id := FirstUnused(s.profiles, ids)), writes)
  }

  function AfterDelete(s: State, id: string, writes: bool): (State, Result<(), StoreError>) {
    if CheckId(id).Err? then (s, Err(CheckId(id).error))
    else if id !in s.profiles then (s, Err(NotFound))
    else AfterWrite(s.profiles - {id}, s.file, writes)
  }

  /** profile-<32 hexadecimal digits of a random identifier> */
  predicate IsGenerated(id: string) {
    && |id| == 40 && "profile-" <= id
    && forall i :: 8 <= i < 40 ==> '0' <= id[i] <= '9' || 'a' <= id[i] <= 'f'
  }

  lemma GeneratedIsValid(id: string)
    requires IsGenerated(id)
    ensures ValidId(id)
  {
    forall i | 0 <= i < |id| ensures IsIdChar(id[i]) {
      if i < 8 {
        assert id[i] == "profile-"[i];
      }
    }
  }

  // ----- the store object

  class Store {
    var profiles: Profiles
    var file: File

    ghost predicate Valid()
      reads this
    {
      Accepted(profiles)
    }

    ghost function Now(): State
      reads this
    {
      State(profiles, file)
    }

    constructor (loaded: Profiles, file: File)
      requires ReadProfiles(file) == Ok(loaded)
      ensures Valid() && Now() == State(loaded, file)
    {
      this.profiles := loaded;
      this.file := file;
      LoadedAccepted(file);
    }

    /** A store opens on any file that reads; its profiles are the ones read. */
    static method Open(file: File) returns (r: Result<Store, StoreError>)
      ensures r.Ok? <==> ReadProfiles(file).Ok?
      ensures r.Err? ==> r.error == ReadProfiles(file).error
      ensures r.Ok? ==> fresh(r.value) && r.value.Valid() && r.value.Now() == State(ReadProfiles(file).value, file)
    {
      var loaded := ReadProfiles(file);
      if loaded.Err? {
        return Err(loaded.error);
      }
      var store := new Store(loaded.value, file);
      r := Ok(store);
    }

    method WriteProfiles(writes: bool) returns (r: Result<(), StoreError>)
      modifies this`file
      ensures (Now(), r) == AfterWrite(profiles, old(file), writes)
    {
      if !writes {
        return Err(Io);
      }
      file := Contents(Values(profiles));
      r := Ok(());
    }

    method UpsertProfile(id: string, request: Request, writes: bool) returns (r: Result<Profile, StoreError>)
      requires Valid()
      modifies this
      ensures Valid()
      ensures (Now(), r) == AfterUpsert(old(Now()), id, request, writes)
    {
      var checked := CheckId(id);
      if checked.Err? {
        return Err(checked.error);
      }
      var normalized := Normalize(id, request);
      if normalized.Err? {
        return Err(normalized.error);
      }
      var p := normalized.value;
      var config := CheckConfig(p);
      if config.Err? {
        return Err(config.error);
      }
      if NameTaken(profiles, Some(id), p.name) {
        return Err(Validation(DuplicateName));
      }
      NormalizedIsStored(id, request, p);
      profiles := profiles[p.id := p];
      var written := WriteProfiles(writes);
      if written.Err? {
        return Err(written.error);
      }
      r := Ok(p);
    }

    /** The generator is asked again for as long as it returns an id in use. */
    method NextUnusedId(ids: seq<string>) returns (id: string)
      requires exists i :: 0 <= i < |ids| && ids[i] !in profiles
      ensures id == FirstUnused(profiles, ids)
    {
      var i := 0;
      while ids[i] in profiles
        invariant 0 <= i < |ids|
        invariant exists k :: i <= k < |ids| && ids[k] !in profiles
        invariant (exists k :: 0 <= k < |ids[i..]| && ids[i..][k] !in profiles)
                  && FirstUnused(profiles, ids[i..]) == FirstUnused(profiles, ids)
        decreases |ids| - i
      {
        assert ids[i..][1..] == ids[i + 1..];
        i := i + 1;
      }
      id := ids[i];
    }

    method CreateProfile(request: Request, ids: seq<string>, writes: bool) returns (r: Result<Profile, StoreError>)
      requires Valid()
      requires forall i :: 0 <= i < |ids| ==> IsGenerated(ids[i])
      requires exists i :: 0 <= i < |ids| && ids[i] !in profiles
      modifies this
      ensures Valid()
      ensures (Now(), r) == AfterCreate(old(Now()), request, ids, writes)
    {
      var prepared := Prepare("profile-pending", request);
      if prepared.Err? {
        return Err(prepared.error);
      }
      var p := prepared.value;
      if NameTaken(profiles, None, p.name) {
        return Err(Validation(DuplicateName));
      }
      var id := NextUnusedId(ids);
      p := p.(id := id);
      PreparedIsStored("profile-pending", request, id);
      profiles := profiles[p.id := p];
      var written := WriteProfiles(writes);
      if written.Err? {
        return Err(written.error);
      }
      r := Ok(p);
    }

    method DeleteProfile(id: string, writes: bool) returns (r: Result<(), StoreError>)
      requires Valid()
      modifies this
      ensures Valid()
      ensures (Now(), r) == AfterDelete(old(Now()), id, writes)
    {
      var checked := CheckId(id);
      if checked.Err? {
        return Err(checked.error);
      }
      if id !in profiles {
        return Err(NotFound);
      }
      profiles := profiles - {id};
      r := WriteProfiles(writes);
    }
  }

  lemma PreparedIsStored(id: string, request: Request, generated: string)
    requires Prepare(id, request).Ok? && IsGenerated(generated)
    ensures CheckStored(Prepare(id, request).value.(id := generated)).Ok?
  {
    var p := Prepare(id, request).value;
    NormalizeIgnoresId(id, generated, request);
    CheckConfigIgnoresId(p, generated);
    GeneratedIsValid(generated);
    NormalizedIsStored(generated, request, p.(id := generated));
  }

  // ----- runs of operations

  datatype Command =
    | Upsert(id: string, request: Request, writes: bool)
    | Create(request: Request, ids: seq<string>, writes: bool)
    | Delete(id: string, writes: bool)

  /** Generated ids have their form, and one of them is unused; anything else can be asked for. */
  ghost predicate Allowed(s: State, c: Command) {
    c.Create? ==>
      && (forall i :: 0 <= i < |c.ids| ==> IsGenerated(c.ids[i]))
      && (exists i :: 0 <= i < |c.ids| && c.ids[i] !in s.profiles)
  }

  ghost function Apply(s: State, c: Command): (State, Option<StoreError>)
    requires Allowed(s, c)
  {
    match c
    case Upsert(id, request, writes) =>
      var (next, r) := AfterUpsert(s, id, request, writes); (next, ErrorOf(r))
    case Create(request, ids, writes) =>
      var (next, r) := AfterCreate(s, request, ids, writes); (next, ErrorOf(r))
    case Delete(id, writes) =>
      var (next, r) := AfterDelete(s, id, writes); (next, ErrorOf(r))
  }

  function ErrorOf<T>(r: Result<T, StoreError>): Option<StoreError> {
    if r.Ok? then None else Some(r.error)
  }

  /** The states of one run, and what each command answered. */
  ghost predicate IsRun(states: seq<State>, commands: seq<Command>, errors: seq<Option<StoreError>>) {
    && |states| == |commands| + 1 && |errors| == |commands|
    && forall i :: 0 <= i < |commands| ==>
         Allowed(states[i], commands[i]) && Apply(states[i], commands[i]) == (states[i + 1], errors[i])
  }

  lemma InsertKeepsSoundBy(check: Profile -> Result<(), StoreError>, m: Profiles, p: Profile)
    requires AcceptedBy(check, m) && check(p).Ok?
    requires forall id :: id in m && id != p.id ==> m[id].name != p.name
    ensures AcceptedBy(check, m[p.id := p]) && (NamesDistinct(m) ==> NamesDistinct(m[p.id := p]))
  {
  }

  lemma InsertKeepsSound(m: Profiles, p: Profile)
    requires Accepted(m) && CheckStored(p).Ok?
    requires forall id :: id in m && id != p.id ==> m[id].name != p.name
    ensures Accepted(m[p.id := p]) && (NamesDistinct(m) ==> NamesDistinct(m[p.id := p]))
  {
    InsertKeepsSoundBy(CheckStored, m, p);
  }

  lemma UpsertKeepsSound(s: State, id: string, request: Request, writes: bool)
    requires Accepted(s.profiles)
    ensures Accepted(AfterUpsert(s, id, request, writes).0.profiles)
    ensures NamesDistinct(s.profiles) ==> NamesDistinct(AfterUpsert(s, id, request, writes).0.profiles)
  {
    if CheckId(id).Ok? && Prepare(id, request).Ok? && !NameTaken(s.profiles, Some(id), Prepare(id, request).value.name) {
      var p := Prepare(id, request).value;
      NormalizedIsStored(id, request, p);
      InsertKeepsSound(s.profiles, p);
    }
  }

  lemma CreateKeepsSound(s: State, c: Command)
    requires Accepted(s.profiles) && c.Create? && Allowed(s, c)
    ensures Accepted(Apply(s, c).0.profiles) && (NamesDistinct(s.profiles) ==> NamesDistinct(Apply(s, c).0.profiles))
  {
    if Prepare("profile-pending", c.request).Ok? {
      var p := Prepare("profile-pending", c.request).value;
      if !NameTaken(s.profiles, None, p.name) {
        var id := FirstUnused(s.profiles, c.ids);
        PreparedIsStored("profile-pending", c.request, id);
        InsertKeepsSound(s.profiles, p.(id := id));
      }
    }
  }

  lemma ApplyKeepsSound(s: State, c: Command)
    requires Accepted(s.profiles) && Allowed(s, c)
    ensures Accepted(Apply(s, c).0.profiles) && (NamesDistinct(s.profiles) ==> NamesDistinct(Apply(s, c).0.profiles))
  {
    match c
    case Upsert(id, request, writes) => UpsertKeepsSound(s, id, request, writes);
    case Create(_, _, _) => CreateKeepsSound(s, c);
    case Delete(_, _) =>
  }

  lemma ApplyKeepsAccepted(s: State, c: Command)
    requires Accepted(s.profiles) && Allowed(s, c)
    ensures Accepted(Apply(s, c).0.profiles)
  {
    ApplyKeepsSound(s, c);
  }

  lemma ApplyKeepsBoth(s: State, c: Command)
    requires Accepted(s.profiles) && NamesDistinct(s.profiles) && Allowed(s, c)
    ensures Accepted(Apply(s, c).0.profiles) && NamesDistinct(Apply(s, c).0.profiles)
  {
    ApplyKeepsSound(s, c);
  }

  lemma {:induction false} RunKeepsAccepted(states: seq<State>, commands: seq<Command>, errors: seq<Option<StoreError>>, i: nat)
    requires IsRun(states, commands, errors) && i < |states| && Accepted(states[0].profiles)
    ensures Accepted(states[i].profiles)
  {
    if i > 0 {
      RunKeepsAccepted(states, commands, errors, i - 1);
      ApplyKeepsAccepted(states[i - 1], commands[i - 1]);
    }
  }

  /** In every run names stay distinct and every profile stays acceptable, whatever writes fail. */
  lemma {:induction false} RunKeepsSound(states: seq<State>, commands: seq<Command>, errors: seq<Option<StoreError>>, i: nat)
    requires IsRun(states, commands, errors) && i < |states|
    requires Accepted(states[0].profiles) && NamesDistinct(states[0].profiles)
    ensures Accepted(states[i].profiles) && NamesDistinct(states[i].profiles)
  {
    if i > 0 {
      RunKeepsSound(states, commands, errors, i - 1);
      ApplyKeepsBoth(states[i - 1], commands[i - 1]);
    }
  }

  /** The same command with a write that works, or fails. */
  function Writing(c: Command, writes: bool): Command {
    c.(writes := writes)
  }

  /**
   What a command leaves behind: a success has written memory to the file; a failed write left the file
   alone, but memory as if it had worked; any other refusal changed nothing.
   */
  ghost predicate Outcome(s: State, next: State, error: Option<StoreError>, writes: bool, intended: Profiles) {
    match error
    case None => writes && next == State(intended, Contents(Values(intended)))
    case Some(Io) => !writes && next == State(intended, s.file)
    case Some(_) => next == s
  }

  lemma OutcomeOfUpsert(s: State, id: string, request: Request, writes: bool)
    ensures var (next, r) := AfterUpsert(s, id, request, writes);
            Outcome(s, next, ErrorOf(r), writes, AfterUpsert(s, id, request, true).0.profiles)
  {
  }

  lemma OutcomeOfCreate(s: State, request: Request, ids: seq<string>, writes: bool)
    requires exists i :: 0 <= i < |ids| && ids[i] !in s.profiles
    ensures var (next, r) := AfterCreate(s, request, ids, writes);
            Outcome(s, next, ErrorOf(r), writes, AfterCreate(s, request, ids, true).0.profiles)
  {
  }

  lemma OutcomeOfCommand(s: State, c: Command)
    requires Allowed(s, c)
    ensures Allowed(s, Writing(c, true))
    ensures Outcome(s, Apply(s, c).0, Apply(s, c).1, c.writes, Apply(s, Writing(c, true)).0.profiles)
  {
    match c
    case Upsert(id, request, writes) => OutcomeOfUpsert(s, id, request, writes);
    case Create(request, ids, writes) => OutcomeOfCreate(s, request, ids, writes);
    case Delete(_, _) =>
  }

  /** Reopening the file would give what is in memory. */
  ghost predicate Agrees(s: State) {
    ReadProfiles(s.file) == Ok(s.profiles)
  }

  /** How many commands had run when the file was last written: the last that answered without error. */
  function LastWritten(errors: seq<Option<StoreError>>): (n: nat)
    ensures n <= |errors|
    ensures n > 0 ==> errors[n - 1] == None
    ensures forall i :: n <= i < |errors| ==> errors[i].Some?
  {
    if errors == [] then 0
    else if errors[|errors| - 1].None? then |errors|
    else LastWritten(errors[..|errors| - 1])
  }

  lemma {:induction false} FileKeepsLastWritten(states: seq<State>, commands: seq<Command>, errors: seq<Option<StoreError>>, n: nat, i: nat)
    requires IsRun(states, commands, errors) && n <= i < |states|
    requires forall k :: n <= k < i ==> errors[k].Some?
    ensures states[i].file == states[n].file
  {
    if n < i {
      FileKeepsLastWritten(states, commands, errors, n, i - 1);
      OutcomeOfCommand(states[i - 1], commands[i - 1]);
    }
  }

  /** Reopening after any run gives the profiles as they were at the last change that was acknowledged. */
  lemma ReopenGivesLastAcknowledged(states: seq<State>, commands: seq<Command>, errors: seq<Option<StoreError>>)
    requires IsRun(states, commands, errors)
    requires Agrees(states[0])
    ensures ReadProfiles(states[|commands|].file) == Ok(states[LastWritten(errors)].profiles)
    ensures Agrees(states[|commands|]) <==> states[|commands|].profiles == states[LastWritten(errors)].profiles
  {
    var n := LastWritten(errors);
    LoadedAccepted(states[0].file);
    RunKeepsAccepted(states, commands, errors, n);
    FileKeepsLastWritten(states, commands, errors, n, |commands|);
    if n > 0 {
      OutcomeOfCommand(states[n - 1], commands[n - 1]);
      ReadUndoesWrite(states[n].profiles);
    }
  }

  // ----- when an operation succeeds

  /** What a request must bring along whatever the store holds. */
  ghost predicate Usable(request: Request) {
    && !Blank(request.name)
    && HasCommand(request.commandArgv)
    && request.timeoutSeconds > 0
    && UserAllowed(request.mode, request.runUid, request.runGid)
    && SafeEnvironment(request.envAllowlist)
  }

  ghost predicate NameHeldByOther(m: Profiles, id: string, name: string) {
    exists other :: other in m && other != id && m[other].name == name
  }

  /** The profile has this id, the trimmed name, the arguments that are not blank, trimmed, and all else as asked for. */
  ghost predicate IsAnswerTo(p: Profile, id: string, request: Request) {
    && p.id == id && p.name == Trim(request.name) && p.commandArgv == TrimAll(request.commandArgv)
    && p.mode == request.mode && p.envAllowlist == request.envAllowlist && p.timeoutSeconds == request.timeoutSeconds
    && p.runUid == request.runUid && p.runGid == request.runGid
  }

  lemma PreparedIff(id: string, request: Request)
    ensures Prepare(id, request).Ok? <==> Usable(request)
    ensures Prepare(id, request).Ok? ==> IsAnswerTo(Prepare(id, request).value, id, request)
  {
    RequestUsableIff(id, request);
  }

  /** An upsert is acknowledged exactly for a valid id, a usable request, a name no other id holds and a write that works. */
  lemma UpsertSucceedsIff(s: State, id: string, request: Request, writes: bool)
    ensures AfterUpsert(s, id, request, writes).1.Ok? <==>
              ValidId(id) && Usable(request) && !NameHeldByOther(s.profiles, id, Trim(request.name)) && writes
    ensures AfterUpsert(s, id, request, writes).1.Ok? ==>
              var (next, r) := AfterUpsert(s, id, request, writes);
              && next.profiles.Keys == s.profiles.Keys + {id} && next.profiles[id] == r.value
              && IsAnswerTo(r.value, id, request)
              && forall other :: other in s.profiles && other != id ==> next.profiles[other] == s.profiles[other]
  {
    PreparedIff(id, request);
  }

  /** Why an upsert is refused: the id is looked at first, then the request, then the name, and the write comes last. */
  lemma UpsertRefusedFor(s: State, id: string, request: Request, writes: bool)
    ensures var r := AfterUpsert(s, id, request, writes).1;
            && (r == Err(Validation(InvalidId)) <==> !ValidId(id))
            && (r == Err(Validation(DuplicateName)) <==>
                  ValidId(id) && Usable(request) && NameHeldByOther(s.profiles, id, Trim(request.name)))
            && (r == Err(Io) <==>
                  ValidId(id) && Usable(request) && !NameHeldByOther(s.profiles, id, Trim(request.name)) && !writes)
            && r != Err(NotFound)
  {
    PreparedIff(id, request);
    PrepareRefusesTheRequest(id, request);
  }

  lemma PrepareRefusesTheRequest(id: string, request: Request)
    ensures Prepare(id, request) != Err(Validation(InvalidId)) && Prepare(id, request) != Err(Validation(DuplicateName))
  {
  }

  /** A creation is acknowledged exactly for a usable request, a name nobody holds and a write that works; it takes a new id. */
  lemma CreateSucceedsIff(s: State, request: Request, ids: seq<string>, writes: bool)
    requires exists i :: 0 <= i < |ids| && ids[i] !in s.profiles
    ensures AfterCreate(s, request, ids, writes).1.Ok? <==>
              Usable(request) && !NameTaken(s.profiles, None, Trim(request.name)) && writes
    ensures AfterCreate(s, request, ids, writes).1.Ok? ==>
              var (next, r) := AfterCreate(s, request, ids, writes);
              && r.value.id in ids && r.value.id !in s.profiles && IsAnswerTo(r.value, r.value.id, request)
              && next.profiles == s.profiles[r.value.id := r.value]
  {
    PreparedIff("profile-pending", request);
  }

  /** A deletion is acknowledged exactly for a valid id that is present and a write that works; it takes that profile only. */
  lemma DeleteSucceedsIff(s: State, id: string, writes: bool)
    ensures AfterDelete(s, id, writes).1.Ok? <==> ValidId(id) && id in s.profiles && writes
    ensures AfterDelete(s, id, writes).1 == Err(NotFound) <==> ValidId(id) && id !in s.profiles
    ensures AfterDelete(s, id, writes).1 == Err(Validation(InvalidId)) <==> !ValidId(id)
    ensures AfterDelete(s, id, writes).1 == Err(Io) <==> ValidId(id) && id in s.profiles && !writes
    ensures var next := AfterDelete(s, id, writes).0;
            && (ValidId(id) ==> id !in next.profiles)
            && forall other :: other != id ==>
                 (other in next.profiles <==> other in s.profiles)
                 && (other in s.profiles ==> next.profiles[other] == s.profiles[other])
  {
  }

  // ----- when memory and file agree

  /** A caller can tell before the call whether it would change what is in memory. */
  ghost predicate ChangesMemory(s: State, c: Command)
    requires Allowed(s, c)
  {
    match c
    case Upsert(id, request, _) =>
      && ValidId(id) && Usable(request) && !NameHeldByOther(s.profiles, id, Trim(request.name))
      && (id !in s.profiles || Prepare(id, request) != Ok(s.profiles[id]))
    case Create(request, _, _) => Usable(request) && !NameTaken(s.profiles, None, Trim(request.name))
    case Delete(id, _) => ValidId(id) && id in s.profiles
  }

  lemma UpsertChangesIff(s: State, id: string, request: Request, writes: bool)
    requires Accepted(s.profiles)
    ensures AfterUpsert(s, id, request, writes).0.profiles != s.profiles <==>
              ChangesMemory(s, Upsert(id, request, writes))
  {
    PreparedIff(id, request);
    if ValidId(id) && Usable(request) && !NameHeldByOther(s.profiles, id, Trim(request.name)) {
      InsertChangesIff(s.profiles, id, Prepare(id, request).value);
    }
  }

  lemma InsertChangesIff(m: Profiles, id: string, p: Profile)
    ensures m[id := p] != m <==> id !in m || m[id] != p
  {
    assert id in m[id := p];
    if id in m && m[id] == p {
      assert m[id := p] == m;
    }
  }

  lemma CreateChangesIff(s: State, c: Command)
    requires c.Create? && Allowed(s, c)
    ensures Apply(s, c).0.profiles != s.profiles <==> ChangesMemory(s, c)
  {
    PreparedIff("profile-pending", c.request);
    if ChangesMemory(s, c) {
      InsertChangesIff(s.profiles, FirstUnused(s.profiles, c.ids),
                       Prepare("profile-pending", c.request).value.(id := FirstUnused(s.profiles, c.ids)));
    }
  }

  lemma MemoryChangesIff(s: State, c: Command)
    requires Accepted(s.profiles) && Allowed(s, c)
    ensures Apply(s, c).0.profiles != s.profiles <==> ChangesMemory(s, c)
  {
    match c
    case Upsert(id, request, writes) => UpsertChangesIff(s, id, request, writes);
    case Create(_, _, _) => CreateChangesIff(s, c);
    case Delete(id, _) => assert id in s.profiles ==> id !in s.profiles - {id};
  }

  /** From an agreeing store, memory and file still agree after a command exactly if the write works or there is nothing to write. */
  lemma AgreementKeptIff(s: State, c: Command)
    requires Agrees(s) && Allowed(s, c)
    ensures Agrees(Apply(s, c).0) <==> c.writes || !ChangesMemory(s, c)
    ensures Agrees(Apply(s, c).0) <==> Apply(s, c).1 != Some(Io) || Apply(s, c).0.profiles == s.profiles
  {
    LoadedAccepted(s.file);
    MemoryChangesIff(s, c);
    OutcomeOfCommand(s, c);
    ApplyKeepsSound(s, c);
    ReadUndoesWrite(Apply(s, c).0.profiles);
  }

  const FIRST_REQUEST := Request("Coder", Host, ["agent"], [], 30, 0, 0)

  lemma FirstRequestIsUsable()
    ensures Usable(FIRST_REQUEST)
  {
    assert FIRST_REQUEST.name[0] == 'C' && !IsWhitespace('C');
    assert !Blank("agent") by {
      assert !IsWhitespace("agent"[0]);
    }
    assert "agent" in FIRST_REQUEST.commandArgv;
  }

  /** The first profile of a new store, with a write that fails: it is in memory and not in the file. */
  lemma FailedWriteParts()
    ensures var s, c := State(map[], Missing), Upsert("p1", FIRST_REQUEST, false);
            && Agrees(s) && Allowed(s, c)
            && Apply(s, c).1 == Some(Io)
            && "p1" in Apply(s, c).0.profiles && ReadProfiles(Apply(s, c).0.file) == Ok(map[])
  {
    FirstRequestIsUsable();
    PreparedIff("p1", FIRST_REQUEST);
    assert ValidId("p1");
  }
}
