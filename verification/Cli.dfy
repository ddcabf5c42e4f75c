/** The CLI's account commands (cmd/cli/auth.go) and which key an operation uses (cmd/cli/main.go).
    The config file is written whole or not at all; the answers of the servers, the failures of
    requests and of the file system are inputs. */
module Cli {
  import opened Wrappers
  import opened Credentials

  datatype Config = Config(url: string, session: Token, project: string, projectName: string, apiKey: string,
                           key: string, keyProject: string, keyId: string)

  const NO_CONFIG := Config("", NoToken, "", "", "", "", "", "")

  datatype Project = Project(id: string, name: string, apiKey: string, role: string)

  /** The server behind a base URL: slashes at its end do not matter. */
  function Host(url: string): string {
    if url != "" && url[|url| - 1] == '/' then Host(url[..|url| - 1]) else url
  }

  lemma {:induction false} HostHasNoSlash(url: string)
    ensures Host(url) <= url && (forall k :: |Host(url)| <= k < |url| ==> url[k] == '/')
    ensures Host(url) == "" || Host(url)[|Host(url)| - 1] != '/'
  {
    if url != "" && url[|url| - 1] == '/' { HostHasNoSlash(url[..|url| - 1]); }
  }

  function ClientOf(base: string, token: Token): Client { Client(Host(base), token) }

  function Forgotten(cfg: Config): Config { cfg.(key := "", keyProject := "", keyId := "") }

  // ---------- what every written config satisfies ----------

  /** The project a held key was used against: its recorded binding, or else the selection. */
  function BoundProject(cfg: Config): string { if cfg.keyProject == "" then cfg.project else cfg.keyProject }

  /** Some credential ever issued is the one cfg holds. */
  ghost predicate HoldsIssued(cfg: Config, rows: seq<Row>) {
    exists i :: 0 <= i < |rows| && Names(rows[i], Host(cfg.url), BoundProject(cfg), cfg.keyId, cfg.key)
  }

  /** A held key implies a session of its own server and a binding to the selected project. */
  ghost predicate Inv(cfg: Config, rows: seq<Row>) {
    && WellFormed(rows)
    && (cfg.session.Token? ==> cfg.session.host == Host(cfg.url) && cfg.url != "")
    && (cfg.key != "" ==>
          && cfg.session.Token?
          && cfg.keyProject != "" && cfg.keyProject == cfg.project
          && HoldsIssued(cfg, rows))
  }

  predicate SameKey(a: Config, b: Config) {
    a.key == b.key && a.keyProject == b.keyProject && a.keyId == b.keyId && Host(a.url) == Host(b.url)
  }

  /** From one state of the file and the servers to a later one: a held key stays held as it was,
      or is dead. */
  ghost predicate Moves(cfg: Config, rows: seq<Row>, cfg': Config, rows': seq<Row>) {
    && Inv(cfg', rows') && Evolves(rows, rows')
    && (cfg.key != "" ==> SameKey(cfg, cfg') || !IsLive(rows', cfg.key))
  }

  lemma HoldsStays(cfg: Config, rows: seq<Row>, later: seq<Row>)
    requires HoldsIssued(cfg, rows) && Evolves(rows, later)
    ensures HoldsIssued(cfg, later)
  {
    var i :| 0 <= i < |rows| && Names(rows[i], Host(cfg.url), BoundProject(cfg), cfg.keyId, cfg.key);
    assert SameCredential(rows[i], later[i]);
  }

  /** What other actors do while no command runs. */
  lemma OthersMove(cfg: Config, rows: seq<Row>, rows': seq<Row>)
    requires Inv(cfg, rows) && Evolves(rows, rows') && WellFormed(rows')
    ensures Moves(cfg, rows, cfg, rows')
  {
    if cfg.key != "" { HoldsStays(cfg, rows, rows'); }
  }

  /** When the credential a config names is settled, the key it holds is dead. */
  lemma SettledIsDead(cfg: Config, rows: seq<Row>, later: seq<Row>)
    requires WellFormed(later) && HoldsIssued(cfg, rows) && Evolves(rows, later)
    requires Settled(later, Host(cfg.url), BoundProject(cfg), cfg.keyId, cfg.key)
    ensures !IsLive(later, cfg.key)
  {
    HoldsStays(cfg, rows, later);
    var i :| 0 <= i < |later| && Names(later[i], Host(cfg.url), BoundProject(cfg), cfg.keyId, cfg.key);
  }

  lemma HoldsIsKnown(cfg: Config, rows: seq<Row>)
    requires HoldsIssued(cfg, rows)
    ensures Known(rows, cfg.key)
  {
    var i :| 0 <= i < |rows| && Names(rows[i], Host(cfg.url), BoundProject(cfg), cfg.keyId, cfg.key);
    assert rows[i].secret == cfg.key;
  }

  // ---------- the commands ----------

  /** The config a command works on, passed by pointer. */
  class ConfigCell {
    var value: Config

    constructor (value: Config)
      ensures this.value == value
    {
      this.value := value;
    }
  }

  datatype AbandonError = NoBinding | NotRevoked(error: RevokeError)

  datatype Outcome =
    | Done
    | NoCookie
    | OtherServer
    | NotLoggedIn
    | RequestFailed
    | KeptSelection    // the session was saved, the previous project and its key kept
    | NotRevokedYet    // the command stopped: the key could not be proved dead
    | MintFailed
    | NotSaved

  datatype LoginLuck = LoginLuck(revoke: RevokeLuck, mint: MintLuck, saves: bool, cleanup: RevokeLuck)

  /** A held key is carried to no other server than the one recorded for it. */
  predicate BelongsToServer(cfg: Config, base: string) { cfg.key == "" || cfg.url == "" || cfg.url == base }

  /** Also for a config a person wrote by hand. */
  lemma AnotherServerExactlyWhen(cfg: Config, base: string)
    ensures !BelongsToServer(cfg, base) <==> cfg.key != "" && cfg.url != "" && cfg.url != base
  {
  }

  class Cli {
    var disk: Config
    const net: Internet

    constructor (net: Internet)
      ensures this.net == net && disk == NO_CONFIG
    {
      this.net := net;
      disk := NO_CONFIG;
    }

    method Save(cfg: Config, saves: bool) returns (ok: bool)
      modifies this`disk
      ensures ok == saves && disk == if saves then cfg else old(disk)
    {
      if saves { disk := cfg; }
      return saves;
    }

    /** Revoke the key bound to the project being left, and only then forget it. */
    method Abandon(c: Client, cfg: ConfigCell, switchingTo: string, luck: RevokeLuck) returns (r: Option<AbandonError>)
      requires WellFormed(net.rows)
      requires cfg.value.key != "" ==>
                 && (BoundProject(cfg.value) != "" ==> HoldsIssued(cfg.value, net.rows))
                 && (Accepted(c) ==> c.host == Host(cfg.value.url))
      modifies cfg, net
      ensures WellFormed(net.rows) && Evolves(old(net.rows), net.rows)
      ensures r.Some? ==> cfg.value == old(cfg.value) && cfg.value.key != ""
      ensures r.None? ==> cfg.value == if old(AbandonNeeded(cfg.value, switchingTo)) then Forgotten(old(cfg.value)) else old(cfg.value)
      ensures old(AbandonNeeded(cfg.value, switchingTo)) && r.None? ==> !IsLive(net.rows, old(cfg.value.key))
      ensures !old(AbandonNeeded(cfg.value, switchingTo)) ==> r.None? && net.rows == old(net.rows)
      ensures var was := old(cfg.value);
              && (was.key == "" || (was.keyProject == "" && was.project == switchingTo != "") || was.keyProject == switchingTo != "" ==>
                    r.None? && cfg.value == was && net.rows == old(net.rows))
              && (was.key != "" && was.keyProject == "" && was.project == "" ==> r == Some(NoBinding))
      ensures var was := old(cfg.value);
              was.key != "" && was.keyProject != "" && was.keyProject != switchingTo ==>
                RevokeArrives(old(net.rows), c, was.keyProject, was.keyId, was.key, luck) ==> r.None?
      ensures old(AbandonNeeded(cfg.value, switchingTo)) && (!Accepted(c) || old(BoundProject(cfg.value)) == "") ==> r.Some?
    {
      if cfg.value.key == "" { return None; }
      var project := cfg.value.keyProject;
      if project == "" { project := cfg.value.project; }
      if project == "" { return Some(NoBinding); }
      if project == switchingTo { return None; }
      var error := RevokeManagedCredential(net, c, project, cfg.value.keyId, cfg.value.key, luck);
      if error.Some? { return Some(NotRevoked(error.value)); }
      HoldsIsKnown(cfg.value, old(net.rows));
      SettledIsDead(cfg.value, old(net.rows), net.rows);
      cfg.value := Forgotten(cfg.value);
      return None;
    }

    /** Select a project once the old key is settled: mint when no key is held, then save.  A fresh
        credential that cannot be saved is revoked, as far as the network allows. */
    method Select(c: Client, cfg: ConfigCell, p: Project, tolerant: bool, luck: LoginLuck) returns (r: Outcome)
      requires Inv(disk, net.rows) && p.id != ""
      requires cfg.value.url != "" && cfg.value.session.Token? && c.host == cfg.value.session.host == Host(cfg.value.url)
      requires cfg.value.key != "" ==> cfg.value.keyProject == p.id && HoldsIssued(cfg.value, net.rows)
      requires disk.key != "" ==> SameKey(disk, cfg.value) || !IsLive(net.rows, disk.key)
      modifies this`disk, cfg, net
      ensures Moves(old(disk), old(net.rows), disk, net.rows)
      ensures r in {Done, MintFailed, NotSaved} && (r == MintFailed ==> !tolerant)
      ensures r != Done ==> disk == old(disk)
      ensures r == Done ==> Selected(old(cfg.value), p, disk, net.rows)
      ensures old(cfg.value.key) != "" ==> net.rows == old(net.rows)
      ensures SelectionFares(old(cfg.value), old(net.rows), c, p, tolerant, luck, r, disk, net.rows)
    {
      ghost var rows := net.rows;
      cfg.value := cfg.value.(project := p.id, projectName := p.name, apiKey := p.apiKey);
      var fresh_: Option<Minted> := None;
      if cfg.value.key == "" {
        var answer := net.Mint(c, p.id, p.role, luck.mint);
        OthersMove(disk, rows, net.rows);
        if answer.Success? {
          fresh_ := Some(answer.value);
          FreshIsIssued(rows, net.rows, c, p.id, luck.mint, answer.value);
          cfg.value := cfg.value.(key := answer.value.secret, keyProject := p.id, keyId := answer.value.id);
          IssuedIsHeld(c, p.id, answer.value, cfg.value, net.rows);
        } else if answer.error.MintFault? && !tolerant {
          return MintFailed;
        }
        DeadStays(disk, rows, net.rows);
      }
      var ok := Save(cfg.value, luck.saves);
      if ok { return Done; }
      if fresh_.Some? {
        ghost var minted := net.rows;
        var failed := RevokeManagedCredential(net, c, p.id, fresh_.value.id, fresh_.value.secret, luck.cleanup);
        EvolvesTransitive(rows, minted, net.rows);
        if failed.None? {
          HoldsIsKnown(cfg.value, minted);
          SettledIsDead(cfg.value, minted, net.rows);
        }
      }
      OthersMove(disk, rows, net.rows);
      return NotSaved;
    }

    /** The shared tail of signup and login: token and project are what the server answered. */
    method PersistSession(base: string, token: Token, payload: Option<Project>, luck: LoginLuck) returns (r: Outcome)
      requires Inv(disk, net.rows)
      requires base != "" && (token.Token? ==> token.host == Host(base))
      modifies this`disk, net
      ensures Moves(old(disk), old(net.rows), disk, net.rows)
      ensures r in {Done, NoCookie, OtherServer, KeptSelection, MintFailed, NotSaved}
      ensures r == NoCookie <==> token.NoToken?
      ensures r == OtherServer <==> token.Token? && old(disk).key != "" && old(disk).url != "" && old(disk).url != base
      ensures token.Token? && r != OtherServer && (payload.None? || payload.value.id == "") ==>
                net.rows == old(net.rows) && r == if luck.saves then Done else NotSaved
      ensures token.Token? && r != OtherServer && payload.Some? && payload.value.id != "" ==>
                SwitchFares(old(disk).(url := base, session := token), old(net.rows), ClientOf(base, token), payload.value, false, luck,
                            if luck.saves then KeptSelection else NotSaved, r, disk, net.rows)
      ensures r !in {Done, KeptSelection} ==> disk == old(disk)
      ensures r == KeptSelection ==> disk == old(disk).(url := base, session := token) && disk.key != ""
      ensures r == Done ==>
                var start := old(disk).(url := base, session := token);
                if payload.None? || payload.value.id == "" then disk == start
                else Selected(if AbandonNeeded(start, payload.value.id) then Forgotten(start) else start,
                              payload.value, disk, net.rows)
      ensures old(disk).key != "" && payload.Some? && old(disk).keyProject == payload.value.id ==> net.rows == old(net.rows)
    {
      if token.NoToken? { return NoCookie; }
      if !BelongsToServer(disk, base) { return OtherServer; }
      ghost var rows := net.rows;
      var cfg := new ConfigCell(disk.(url := base, session := token));
      if payload.None? || payload.value.id == "" {
        var ok := Save(cfg.value, luck.saves);
        return if ok then Done else NotSaved;
      }
      var c := ClientOf(base, token);
      var abandoned := Abandon(c, cfg, payload.value.id, luck.revoke);
      OthersMove(disk, rows, net.rows);
      if abandoned.Some? {
        ghost var kept := cfg.value;
        OthersMove(kept, rows, net.rows);
        var ok := Save(cfg.value, luck.saves);
        return if ok then KeptSelection else NotSaved;
      }
      ghost var left := net.rows;
      if cfg.value.key != "" { HoldsStays(cfg.value, rows, left); }
      r := Select(c, cfg, payload.value, false, luck);
      EvolvesTransitive(rows, left, net.rows);
    }

    /** agentray key: chosen is the project the account's answer resolved to, rotatedKey the capture
        key after --rotate, and arrives whether those requests came back. */
    method KeyCommand(base: string, chosen: Option<Project>, rotatedKey: Option<string>, arrives: bool, luck: LoginLuck)
      returns (r: Outcome)
      requires Inv(disk, net.rows) && (chosen.Some? ==> chosen.value.id != "")
      modifies this`disk, net
      ensures Moves(old(disk), old(net.rows), disk, net.rows)
      ensures r in {Done, NotLoggedIn, OtherServer, RequestFailed, NotRevokedYet, NotSaved}
      ensures r == NotLoggedIn <==> old(disk).session == NoToken
      ensures r == OtherServer <==> old(disk).session != NoToken && old(disk).key != "" && old(disk).url != "" && old(disk).url != base
      ensures r == RequestFailed <==> r !in {NotLoggedIn, OtherServer}
                                      && (old(disk).session.host != Host(base) || !arrives || chosen == None)
      ensures r !in {NotLoggedIn, OtherServer, RequestFailed} ==>
                var p := if rotatedKey.Some? then chosen.value.(apiKey := rotatedKey.value) else chosen.value;
                SwitchFares(old(disk), old(net.rows), Client(Host(base), old(disk).session), p, true, luck,
                            NotRevokedYet, r, disk, net.rows)
      ensures r != Done ==> disk == old(disk)
      ensures r == Done ==>
                && chosen.Some? && old(disk).session.Token? && BelongsToServer(old(disk), base)
                && var p := if rotatedKey.Some? then chosen.value.(apiKey := rotatedKey.value) else chosen.value;
                   Selected(if AbandonNeeded(old(disk), p.id) then Forgotten(old(disk)) else old(disk), p, disk, net.rows)
      ensures old(disk).key != "" && chosen.Some? && old(disk).keyProject == chosen.value.id ==> net.rows == old(net.rows)
    {
      if disk.session.NoToken? { return NotLoggedIn; }
      if !BelongsToServer(disk, base) { return OtherServer; }
      var c := ClientOf(base, disk.session);
      if !Accepted(c) || !arrives || chosen.None? { return RequestFailed; }
      var p := if rotatedKey.Some? then chosen.value.(apiKey := rotatedKey.value) else chosen.value;
      ghost var rows := net.rows;
      var cfg := new ConfigCell(disk);
      var abandoned := Abandon(c, cfg, p.id, luck.revoke);
      OthersMove(disk, rows, net.rows);
      if abandoned.Some? { return NotRevokedYet; }
      ghost var left := net.rows;
      if cfg.value.key != "" { HoldsStays(cfg.value, rows, left); }
      r := Select(c, cfg, p, true, luck);
      EvolvesTransitive(rows, left, net.rows);
    }

    /** Revoke what the config holds, then clear it.  Without that proof nothing is cleared. */
    method Logout(base: string, revoke: RevokeLuck, saves: bool) returns (r: Outcome)
      requires Inv(disk, net.rows)
      modifies this`disk, net
      ensures Moves(old(disk), old(net.rows), disk, net.rows)
      ensures r in {Done, NotRevokedYet, NotSaved}
      ensures r == Done ==> disk == NO_CONFIG.(url := old(disk).url) && (old(disk).key != "" ==> !IsLive(net.rows, old(disk).key))
      ensures r != Done ==> disk == old(disk)
      ensures old(disk).key != "" && Host(base) != Host(old(disk).url) ==> r == NotRevokedYet
      ensures r == NotRevokedYet ==>
                && old(disk).key != ""
                && !RevokeArrives(old(net.rows), Client(Host(base), old(disk).session), old(disk).keyProject, old(disk).keyId, old(disk).key, revoke)
      ensures r != NotRevokedYet ==> r == if saves then Done else NotSaved
      ensures old(disk).key == "" ==> net.rows == old(net.rows)
    {
      ghost var rows := net.rows;
      var cfg := new ConfigCell(disk);
      if disk.session.Token? {
        var abandoned := Abandon(ClientOf(base, disk.session), cfg, "", revoke);
        OthersMove(disk, rows, net.rows);
        if abandoned.Some? { return NotRevokedYet; }
      }
      var ok := Save(NO_CONFIG.(url := cfg.value.url), saves);
      return if ok then Done else NotSaved;
    }
  }

  /** The key cfg holds is bound to another project than the one being selected. */
  predicate AbandonNeeded(cfg: Config, switchingTo: string) {
    cfg.key != "" && (BoundProject(cfg) == "" || BoundProject(cfg) != switchingTo)
  }

  /** cfg is start with p selected; a key bound to p is kept, otherwise there is none or a fresh one. */
  ghost predicate Selected(start: Config, p: Project, cfg: Config, rows: seq<Row>) {
    && cfg == start.(project := p.id, projectName := p.name, apiKey := p.apiKey,
                     key := cfg.key, keyProject := cfg.keyProject, keyId := cfg.keyId)
    && (start.key != "" ==> SameKey(start, cfg))
    && (start.key == "" && cfg.key != "" ==> cfg.keyProject == p.id && IsLive(rows, cfg.key))
  }

  /** How selecting p ends, from a config with no key or with one bound to p.  A held key is kept.
      Without one, a mint that goes through is saved, or cleaned up when it cannot be saved; a role or a
      server that does not mint leaves the config without a key; and a fault stops the command unless
      it is tolerant. */
  ghost predicate SelectionFares(start: Config, rows: seq<Row>, c: Client, p: Project, tolerant: bool, luck: LoginLuck,
                                 r: Outcome, disk: Config, rows': seq<Row>)
    requires WellFormed(rows)
  {
    var chosen := start.(project := p.id, projectName := p.name, apiKey := p.apiKey);
    var saved := if luck.saves then Done else NotSaved;
    if start.key != "" then
      rows' == rows && r == saved && (luck.saves ==> disk == chosen)
    else if Grants(rows, c, luck.mint) then
      var id := if luck.mint.idShown then luck.mint.id else "";
      && r == saved
      && (luck.saves ==>
            && disk == chosen.(key := luck.mint.secret, keyProject := p.id, keyId := id)
            && Row(c.host, p.id, luck.mint.id, luck.mint.secret, "cli", Live) in rows')
      && (!luck.saves && CleanupArrives(rows, c, p.id, id, luck) ==> !IsLive(rows', luck.mint.secret))
    else if luck.mint.reply == NotFound || (luck.mint.reply == BadRequest && p.role == "member") || tolerant then
      r == saved && (luck.saves ==> disk == chosen)
    else
      r == MintFailed
  }

  /** The fresh credential can be deleted: by its id, or else by what the list shows. */
  ghost predicate CleanupArrives(rows: seq<Row>, c: Client, project: string, id: string, luck: LoginLuck)
    requires WellFormed(rows)
  {
    if id != "" then luck.cleanup.delete.applied && luck.cleanup.delete.reported
    else
      var minted := WithFresh(rows, c, project, luck.mint);
      WellFormed(minted) && RevokeArrives(minted, c, project, id, luck.mint.secret, luck.cleanup)
  }

  /** The same with a key that may be bound to another project: unless it can be revoked the command
      stops, and when it can the selection starts without a key. */
  ghost predicate SwitchFares(start: Config, rows: seq<Row>, c: Client, p: Project, tolerant: bool, luck: LoginLuck,
                              stopped: Outcome, r: Outcome, disk: Config, rows': seq<Row>)
    requires WellFormed(rows)
  {
    if start.key == "" || start.keyProject == p.id then SelectionFares(start, rows, c, p, tolerant, luck, r, disk, rows')
    else
      || (r == stopped && !RevokeArrives(rows, c, start.keyProject, start.keyId, start.key, luck.revoke))
      || (exists mid: seq<Row> ::
            && WellFormed(mid) && Evolves(rows, mid) && !IsLive(mid, start.key)
            && SelectionFares(start.(key := "", keyProject := "", keyId := ""), mid, c, p, tolerant, luck, r, disk, rows'))
  }

  lemma FreshIsIssued(rows: seq<Row>, later: seq<Row>, c: Client, project: string, luck: MintLuck, m: Minted)
    requires WellFormed(rows) && later == WithFresh(rows, c, project, luck)
    requires m == Minted(luck.secret, if luck.idShown then luck.id else "")
    ensures var x := Row(c.host, project, luck.id, luck.secret, "cli", Live); x in later && Issued(x, c, project, m)
  {
    assert later[|later| - 1] in later;
  }

  lemma IssuedIsHeld(c: Client, project: string, m: Minted, cfg: Config, rows: seq<Row>)
    requires exists x :: x in rows && Issued(x, c, project, m)
    requires c.host == Host(cfg.url) && cfg.key == m.secret && BoundProject(cfg) == project && cfg.keyId == m.id
    ensures HoldsIssued(cfg, rows) && IsLive(rows, cfg.key)
  {
    var x :| x in rows && Issued(x, c, project, m);
    var i :| 0 <= i < |rows| && rows[i] == x;
    assert Names(rows[i], Host(cfg.url), BoundProject(cfg), cfg.keyId, cfg.key);
  }

  lemma DeadStays(cfg: Config, rows: seq<Row>, later: seq<Row>)
    requires Inv(cfg, rows) && Evolves(rows, later) && WellFormed(later)
    ensures cfg.key != "" && !IsLive(rows, cfg.key) ==> !IsLive(later, cfg.key)
  {
    if cfg.key != "" {
      HoldsIsKnown(cfg, rows);
      var i :| 0 <= i < |rows| && rows[i].secret == cfg.key;
      assert SameCredential(rows[i], later[i]);
    }
  }

  // ---------- which key an operation uses ----------

  function FirstNonEmpty(values: seq<string>): string {
    if values == [] then "" else if values[0] != "" then values[0] else FirstNonEmpty(values[1..])
  }

  /** The held key, unless it is bound to another project than the selected one; then the
      environment's key; then the capture key. */
  function OperationCredential(cfg: Config, envKey: string): string {
    var key := if cfg.keyProject != "" && cfg.project != "" && cfg.keyProject != cfg.project then "" else cfg.key;
    FirstNonEmpty([key, envKey, cfg.apiKey])
  }

  /** For any config, the one a person wrote by hand included. */
  lemma OperationUses(cfg: Config, envKey: string)
    ensures OperationCredential(cfg, envKey) ==
            if cfg.key != "" && (cfg.keyProject == "" || cfg.project == "" || cfg.keyProject == cfg.project) then cfg.key
            else if envKey != "" then envKey
            else cfg.apiKey
  {
    FirstOfThree(cfg.key, envKey, cfg.apiKey);
    FirstOfThree("", envKey, cfg.apiKey);
  }

  lemma FirstOfThree(a: string, b: string, c: string)
    ensures FirstNonEmpty([a, b, c]) == if a != "" then a else if b != "" then b else c
  {
    assert [a, b, c][1..] == [b, c] && [b, c][1..] == [c];
    assert FirstNonEmpty([c]) == c by { assert [c][1..] == []; }
    assert FirstNonEmpty([b, c]) == if b != "" then b else c;
  }

  /** With any config that meets the invariant, an operation uses the held key when there is one. */
  lemma OperationsUseTheHeldKey(cfg: Config, rows: seq<Row>, envKey: string)
    requires Inv(cfg, rows)
    ensures OperationCredential(cfg, envKey) ==
            if cfg.key != "" then cfg.key else if envKey != "" then envKey else cfg.apiKey
  {
    FirstOfThree(cfg.key, envKey, cfg.apiKey);
  }

  // ---------- every sequence of commands ----------

  /** A command with all the answers and failures it meets, or what other people do in between. */
  datatype Command =
    | Session(base: string, token: Token, payload: Option<Project>, luck: LoginLuck)   // signup and login
    | Key(base: string, chosen: Option<Project>, rotatedKey: Option<string>, arrives: bool, luck: LoginLuck)
    | LogoutFrom(base: string, revoke: RevokeLuck, saves: bool)
    | Others(next: seq<Row>)

  /** A server answers with a session of its own, and projects have ids. */
  predicate Possible(command: Command) {
    match command
    case Session(base, token, _, _) => base != "" && (token.Token? ==> token.host == Host(base))
    case Key(_, chosen, _, _, _) => chosen.Some? ==> chosen.value.id != ""
    case _ => true
  }

  method Execute(cli: Cli, command: Command)
    requires Inv(cli.disk, cli.net.rows) && Possible(command)
    modifies cli`disk, cli.net
    ensures Moves(old(cli.disk), old(cli.net.rows), cli.disk, cli.net.rows)
  {
    match command {
      case Session(base, token, payload, luck) => var r := cli.PersistSession(base, token, payload, luck);
      case Key(base, chosen, rotatedKey, arrives, luck) => var r := cli.KeyCommand(base, chosen, rotatedKey, arrives, luck);
      case LogoutFrom(base, revoke, saves) => var r := cli.Logout(base, revoke, saves);
      case Others(next) =>
        cli.net.Meanwhile(next);
        OthersMove(cli.disk, old(cli.net.rows), cli.net.rows);
    }
  }

  /** Over any commands, a credential the file tracks stays tracked as it is until it is not live. */
  method ExecuteAll(cli: Cli, commands: seq<Command>)
    requires Inv(cli.disk, cli.net.rows) && forall k :: 0 <= k < |commands| ==> Possible(commands[k])
    modifies cli`disk, cli.net
    ensures Inv(cli.disk, cli.net.rows) && Evolves(old(cli.net.rows), cli.net.rows)
    ensures old(cli.disk).key != "" && IsLive(cli.net.rows, old(cli.disk).key) ==> SameKey(old(cli.disk), cli.disk)
  {
    ghost var first, start := cli.disk, cli.net.rows;
    MovesNowhere(first, start);
    for k := 0 to |commands|
      invariant Moves(first, start, cli.disk, cli.net.rows)
    {
      ghost var disk, rows := cli.disk, cli.net.rows;
      Execute(cli, commands[k]);
      MovesCompose(first, start, disk, rows, cli.disk, cli.net.rows);
    }
  }

  lemma MovesNowhere(cfg: Config, rows: seq<Row>)
    requires Inv(cfg, rows)
    ensures Moves(cfg, rows, cfg, rows)
  {
  }

  lemma MovesCompose(first: Config, start: seq<Row>, mid: Config, rows: seq<Row>, last: Config, later: seq<Row>)
    requires Inv(first, start) && Moves(first, start, mid, rows) && Moves(mid, rows, last, later)
    ensures Moves(first, start, last, later)
  {
    EvolvesTransitive(start, rows, later);
    if first.key != "" && IsLive(later, first.key) { LiveWasLive(first, start, rows, later); }
  }

  lemma LiveWasLive(cfg: Config, rows: seq<Row>, mid: seq<Row>, later: seq<Row>)
    requires Inv(cfg, rows) && cfg.key != "" && Evolves(rows, mid) && Evolves(mid, later)
    requires WellFormed(mid) && WellFormed(later) && IsLive(later, cfg.key)
    ensures IsLive(mid, cfg.key)
  {
    HoldsStays(cfg, rows, mid);
    HoldsIsKnown(cfg, mid);
    var i :| 0 <= i < |mid| && mid[i].secret == cfg.key;
    assert SameCredential(mid[i], later[i]);
  }

  /** The whole life of a config file: from no file at all, any commands, then any more.  Whatever key
      it holds after the first of them it still holds after the last, or the key is dead; and at both
      times a held key comes with a session and is bound to the selected project, so that an operation
      uses it rather than the environment's or the capture key. */
  method LifeOfAConfig(net: Internet, commands: seq<Command>, more: seq<Command>, envKey: string)
    returns (held: Config, last: Config, used: string)
    requires WellFormed(net.rows) && forall k :: 0 <= k < |commands| ==> Possible(commands[k])
    requires forall k :: 0 <= k < |more| ==> Possible(more[k])
    modifies net
    ensures held.key != "" && IsLive(net.rows, held.key) ==> SameKey(held, last)
    ensures forall cfg :: cfg in {held, last} && cfg.key != "" ==> cfg.session.Token? && cfg.keyProject == cfg.project != ""
    ensures used == OperationCredential(last, envKey)
    ensures used == if last.key != "" then last.key else if envKey != "" then envKey else last.apiKey
  {
    var cli := new Cli(net);
    ExecuteAll(cli, commands);
    held := cli.disk;
    ExecuteAll(cli, more);
    last := cli.disk;
    OperationsUseTheHeldKey(last, net.rows, envKey);
    used := OperationCredential(last, envKey);
  }
}
