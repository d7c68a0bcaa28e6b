/** Agent profiles: how a request is normalised and which profiles are accepted. */
module AgentProfiles {
  import opened Text
  import opened Wrappers

  datatype Mode = Host | Chroot

  datatype Profile = Profile(
    id: string,
    name: string,
    mode: Mode,
    commandArgv: seq<string>,
    envAllowlist: seq<string>,
    timeoutSeconds: nat,
    runUid: nat,
    runGid: nat)

  datatype Request = Request(
    name: string,
    mode: Mode,
    commandArgv: seq<string>,
    envAllowlist: seq<string>,
    timeoutSeconds: nat,
    runUid: nat,
    runGid: nat)

  datatype ConfigError =
    | MissingCommand
    | EmptyArgvElement
    | InvalidTimeout
    | RootRunUid
    | RootRunGid
    | InvalidEnvName(name: string)

  datatype Reason = InvalidId | EmptyName | NoCommand | DuplicateName | BadConfig(config: ConfigError)

  datatype StoreError = Io | Json | Validation(reason: Reason) | NotFound

  // ----- identifiers

  predicate IsIdChar(c: char) {
    c == '-' || c == '_' || IsAlphanumeric(c)
  }

  predicate ValidId(id: string) {
    id != "" && forall i :: 0 <= i < |id| ==> IsIdChar(id[i])
  }

  function CheckId(id: string): Result<(), StoreError> {
    if ValidId(id) then Ok(()) else Err(Validation(InvalidId))
  }

  // ----- normalisation of a request

  function TrimAll(args: seq<string>): (kept: seq<string>) {
    if args == [] then []
    else (if Trim(args[0]) == "" then [] else [Trim(args[0])]) + TrimAll(args[1..])
  }

  function NormalizeCommand(args: seq<string>): Result<seq<string>, StoreError> {
    var kept := TrimAll(args);
    if kept == [] then Err(Validation(NoCommand)) else Ok(kept)
  }

  function Normalize(id: string, request: Request): Result<Profile, StoreError> {
    var name := Trim(request.name);
    if name == "" then Err(Validation(EmptyName))
    else match NormalizeCommand(request.commandArgv)
      case Err(e) => Err(e)
      case Ok(argv) =>
        Ok(Profile(id, name, request.mode, argv, request.envAllowlist,
                   request.timeoutSeconds, request.runUid, request.runGid))
  }

  // ----- the launch configuration behind a profile

  predicate IsSafeEnvName(name: string) {
    && name != ""
    && (name[0] == '_' || 'a' <= name[0] <= 'z' || 'A' <= name[0] <= 'Z')
    && forall i :: 1 <= i < |name| ==> name[i] == '_' || IsAlphanumeric(name[i])
  }

  function FirstUnsafe(names: seq<string>): (found: Option<string>)
    ensures found.None? <==> forall name :: name in names ==> IsSafeEnvName(name)
    ensures found.Some? ==> found.value in names && !IsSafeEnvName(found.value)
  {
    if names == [] then None
    else if !IsSafeEnvName(names[0]) then Some(names[0])
    else FirstUnsafe(names[1..])
  }

  /** profile_to_config: the first rule the profile breaks, if any. */
  function CheckConfig(p: Profile): Result<(), StoreError> {
    if p.commandArgv == [] then Err(Validation(BadConfig(MissingCommand)))
    else if "" in p.commandArgv then Err(Validation(BadConfig(EmptyArgvElement)))
    else if p.timeoutSeconds == 0 then Err(Validation(BadConfig(InvalidTimeout)))
    else if p.mode == Chroot && p.runUid == 0 then Err(Validation(BadConfig(RootRunUid)))
    else if p.mode == Chroot && p.runGid == 0 then Err(Validation(BadConfig(RootRunGid)))
    else match FirstUnsafe(p.envAllowlist)
      case Some(name) => Err(Validation(BadConfig(InvalidEnvName(name))))
      case None => Ok(())
  }

  // ----- stored profiles

  function RequestOf(p: Profile): Request {
    Request(p.name, p.mode, p.commandArgv, p.envAllowlist, p.timeoutSeconds, p.runUid, p.runGid)
  }

  /** validate_stored_profile: id, then the fields as a request, then the configuration. */
  function CheckStored(p: Profile): Result<(), StoreError> {
    if CheckId(p.id).Err? then CheckId(p.id)
    else match Normalize(p.id, RequestOf(p))
      case Err(e) => Err(e)
      case Ok(_) => CheckConfig(p)
  }

  lemma {:induction false} TrimAllKeepsNonBlank(args: seq<string>)
    ensures TrimAll(args) == [] <==> forall a :: a in args ==> Blank(a)
    ensures "" !in TrimAll(args)
  {
    if args != [] {
      TrimIsTrimmed(args[0]);
      TrimAllKeepsNonBlank(args[1..]);
      assert args == [args[0]] + args[1..];
    }
  }

  lemma {:induction false} TrimAllIsIdempotent(args: seq<string>)
    ensures TrimAll(TrimAll(args)) == TrimAll(args)
  {
    if args != [] {
      TrimIsTrimmed(args[0]);
      TrimIsTrimmed(Trim(args[0]));
      TrimAllIsIdempotent(args[1..]);
      var kept := TrimAll(args);
      if Trim(args[0]) != "" {
        assert kept[1..] == TrimAll(args[1..]);
      } else {
        assert kept == TrimAll(args[1..]);
      }
    }
  }

  ghost predicate HasCommand(args: seq<string>) {
    exists a :: a in args && !Blank(a)
  }

  ghost predicate SafeEnvironment(names: seq<string>) {
    forall name :: name in names ==> IsSafeEnvName(name)
  }

  /** Chroot launches may not run as root. */
  predicate UserAllowed(mode: Mode, uid: nat, gid: nat) {
    mode == Chroot ==> uid > 0 && gid > 0
  }

  /** Normalising fails for a blank name or a command of blanks, and for nothing else. */
  lemma NormalizableIff(id: string, request: Request)
    ensures Normalize(id, request).Ok? <==> !Blank(request.name) && HasCommand(request.commandArgv)
    ensures Normalize(id, request).Ok? ==> "" !in Normalize(id, request).value.commandArgv
  {
    TrimIsTrimmed(request.name);
    TrimAllKeepsNonBlank(request.commandArgv);
  }

  lemma ConfigUsableIff(p: Profile)
    ensures CheckConfig(p).Ok? <==>
              && p.commandArgv != [] && "" !in p.commandArgv
              && p.timeoutSeconds > 0
              && UserAllowed(p.mode, p.runUid, p.runGid)
              && SafeEnvironment(p.envAllowlist)
  {
    var found := FirstUnsafe(p.envAllowlist);
    if found.Some? {
      assert !SafeEnvironment(p.envAllowlist);
    }
  }

  /** A stored profile is accepted exactly when every field is usable as it stands. */
  lemma StoredAcceptedIff(p: Profile)
    ensures CheckStored(p).Ok? <==>
              && ValidId(p.id)
              && !Blank(p.name)
              && HasCommand(p.commandArgv) && "" !in p.commandArgv
              && p.timeoutSeconds > 0
              && UserAllowed(p.mode, p.runUid, p.runGid)
              && SafeEnvironment(p.envAllowlist)
  {
    NormalizableIff(p.id, RequestOf(p));
    ConfigUsableIff(p);
  }

  lemma Regroup(a: seq<string>, b: seq<string>, c: seq<string>)
    ensures a + (b + c) == (a + b) + c
  {
  }

  lemma {:induction false} TrimAllAppends(before: seq<string>, after: seq<string>)
    ensures TrimAll(before + after) == TrimAll(before) + TrimAll(after)
  {
    if before == [] {
      assert before + after == after;
    } else {
      TrimAllAppends(before[1..], after);
      assert (before + after)[0] == before[0] && (before + after)[1..] == before[1..] + after;
      Regroup(if Trim(before[0]) == "" then [] else [Trim(before[0])], TrimAll(before[1..]), TrimAll(after));
    }
  }

  /** An argument is kept, trimmed, unless it is blank; and arguments are kept in the order given. */
  lemma TrimAllKeepsOrder(before: seq<string>, arg: string, after: seq<string>)
    ensures TrimAll(before + [arg] + after) == TrimAll(before) + (if Blank(arg) then [] else [Trim(arg)]) + TrimAll(after)
  {
    TrimAllAppends(before + [arg], after);
    TrimAllAppends(before, [arg]);
    TrimIsTrimmed(arg);
    assert [arg][1..] == [];
  }

  /** What normalising produces normalises to itself, so it is accepted once its configuration is. */
  lemma NormalizedIsStored(id: string, request: Request, p: Profile)
    requires Normalize(id, request) == Ok(p)
    ensures Normalize(id, RequestOf(p)) == Ok(p)
    ensures CheckStored(p).Ok? <==> ValidId(id) && CheckConfig(p).Ok?
  {
    TrimIsTrimmed(request.name);
    TrimIsTrimmed(p.name);
    TrimAllIsIdempotent(request.commandArgv);
  }

  lemma NormalizeIgnoresId(id: string, other: string, request: Request)
    requires Normalize(id, request).Ok?
    ensures Normalize(other, request) == Ok(Normalize(id, request).value.(id := other))
  {
  }

  lemma CheckConfigIgnoresId(p: Profile, other: string)
    ensures CheckConfig(p.(id := other)) == CheckConfig(p)
  {
  }

  /** A request passes both checks exactly when its own fields allow it. */
  lemma RequestUsableIff(id: string, request: Request)
    ensures (Normalize(id, request).Ok? && CheckConfig(Normalize(id, request).value).Ok?) <==>
              && !Blank(request.name)
              && HasCommand(request.commandArgv)
              && request.timeoutSeconds > 0
              && UserAllowed(request.mode, request.runUid, request.runGid)
              && SafeEnvironment(request.envAllowlist)
  {
    NormalizableIff(id, request);
    if Normalize(id, request).Ok? {
      ConfigUsableIff(Normalize(id, request).value);
    }
  }
}
