/** The servers' credential tables as the CLI meets them (cmd/cli/auth.go): requests may be refused,
    lost on the way, or applied and reported as failed, and other actors mint and revoke between
    any two of them.  Assumed of the servers: a session token is refused by a server that did not
    issue it, a list that is answered is complete for its project, a delete reported as done was
    done, a credential's hint is the end of its secret, and secrets and ids are never reused. */
module Credentials {
  import opened Wrappers

  // ---------- the table ----------

  datatype Status = Live | Revoked | Removed

  datatype Row = Row(host: string, project: string, id: string, secret: string, name: string, status: Status)

  const CLI_NAME := "cli"

  predicate SameCredential(a: Row, b: Row) { a.(status := Live) == b.(status := Live) }

  predicate WellFormed(rows: seq<Row>) {
    && (forall i :: 0 <= i < |rows| ==> rows[i].id != "")
    && (forall i, j :: 0 <= i < j < |rows| ==> rows[i].secret != rows[j].secret)
    && (forall i, j :: 0 <= i < j < |rows| && rows[i].host == rows[j].host ==> rows[i].id != rows[j].id)
  }

  /** Rows are added and die; none comes back to life. */
  predicate Evolves(rows: seq<Row>, later: seq<Row>) {
    && |rows| <= |later|
    && forall i :: 0 <= i < |rows| ==> SameCredential(rows[i], later[i]) && (later[i].status.Live? ==> rows[i].status.Live?)
  }

  predicate IsLive(rows: seq<Row>, secret: string) {
    exists i :: 0 <= i < |rows| && rows[i].secret == secret && rows[i].status.Live?
  }

  /** The table after what others did, when that is something others can do. */
  function After(rows: seq<Row>, next: seq<Row>): (later: seq<Row>)
    requires WellFormed(rows)
    ensures WellFormed(later) && Evolves(rows, later)
  {
    if Evolves(rows, next) && WellFormed(next) then next else rows
  }

  /** A secret no row has, and an id no row of this server has. */
  predicate Unused(rows: seq<Row>, host: string, id: string, secret: string) {
    && id != "" && secret != ""
    && forall i :: 0 <= i < |rows| ==> rows[i].secret != secret && (rows[i].host == host ==> rows[i].id != id)
  }

  lemma EvolvesTransitive(a: seq<Row>, b: seq<Row>, c: seq<Row>)
    requires Evolves(a, b) && Evolves(b, c)
    ensures Evolves(a, c)
  {
  }

  // ---------- requests ----------

  /** A token carries the server that issued it; a client sends one to some server. */
  datatype Token = NoToken | Token(host: string, nonce: string)

  datatype Client = Client(host: string, token: Token)

  predicate Accepted(c: Client) { c.token.Token? && c.token.host == c.host }

  /** The hint a listed row shows. */
  function Hint(secret: string): string { if |secret| < 4 then secret else secret[|secret| - 4..] }

  /** How one request fares: what others do first, whether it arrives, whether its answer does. */
  datatype Luck = Luck(meanwhile: seq<Row>, applied: bool, removes: bool, reported: bool)

  datatype RevokeLuck = RevokeLuck(resolve: Luck, delete: Luck, confirm: Luck)

  datatype MintReply = Secret | NoSecret | NotFound | BadRequest | Fault

  datatype MintLuck = MintLuck(request: Luck, id: string, secret: string, idShown: bool, reply: MintReply)

  datatype MintError = Unsupported | DeniedToRole | MintFault

  datatype Minted = Minted(secret: string, id: string)

  datatype RevokeError = TooShort | Unreadable | Ambiguous(count: nat) | StillLive | Unconfirmed

  function Listed(rows: seq<Row>, host: string, project: string): seq<Row> {
    if rows == [] then []
    else
      var x, before := rows[|rows| - 1], Listed(rows[..|rows| - 1], host, project);
      if x.host == host && x.project == project && !x.status.Removed? then before + [x] else before
  }

  lemma {:induction false} ListedIsComplete(rows: seq<Row>, host: string, project: string)
    ensures forall x :: x in Listed(rows, host, project) <==>
              x in rows && x.host == host && x.project == project && !x.status.Removed?
  {
    if rows != [] {
      ListedIsComplete(rows[..|rows| - 1], host, project);
      assert rows == rows[..|rows| - 1] + [rows[|rows| - 1]];
    }
  }

  lemma SecretWasNew(start: seq<Row>, later: seq<Row>, secret: string)
    requires Evolves(start, later) && forall i :: 0 <= i < |later| ==> later[i].secret != secret
    ensures !IsLive(start, secret)
  {
    forall i | 0 <= i < |start| ensures start[i].secret != secret {
      assert SameCredential(start[i], later[i]);
    }
  }

  class Internet {
    var rows: seq<Row>

    constructor ()
      ensures rows == []
    {
      rows := [];
    }

    /** What other people do in the web app and on other machines. */
    method Meanwhile(next: seq<Row>)
      requires WellFormed(rows)
      modifies this
      ensures WellFormed(rows) && Evolves(old(rows), rows) && rows == After(old(rows), next)
    {
      if Evolves(rows, next) && WellFormed(next) {
        rows := next;
      }
    }

    /** GET credentials: the project's rows, revoked ones included. */
    method List(c: Client, project: string, luck: Luck) returns (r: Option<seq<Row>>)
      requires WellFormed(rows)
      modifies this
      ensures WellFormed(rows) && Evolves(old(rows), rows) && rows == After(old(rows), luck.meanwhile)
      ensures r == if Accepted(c) && luck.applied && luck.reported then Some(Listed(rows, c.host, project)) else None
    {
      Meanwhile(luck.meanwhile);
      if !Accepted(c) || !luck.applied || !luck.reported { return None; }
      var listed: seq<Row> := [];
      for i := 0 to |rows|
        invariant WellFormed(rows) && rows == After(old(rows), luck.meanwhile) && listed == Listed(rows[..i], c.host, project)
      {
        assert rows[..i + 1][..i] == rows[..i];
        if rows[i].host == c.host && rows[i].project == project && !rows[i].status.Removed? {
          listed := listed + [rows[i]];
        }
      }
      assert rows[..|rows|] == rows;
      r := Some(listed);
    }

    /** DELETE a credential.  Answering yes means it was done; no means nothing. */
    method Delete(c: Client, project: string, id: string, luck: Luck) returns (ok: bool)
      requires WellFormed(rows)
      modifies this
      ensures WellFormed(rows) && Evolves(old(rows), rows)
      ensures ok <==> Accepted(c) && luck.applied && luck.reported
      ensures Accepted(c) && luck.applied ==>
                forall x :: x in rows && x.host == c.host && x.project == project && x.id == id ==> !x.status.Live?
      ensures var now := After(old(rows), luck.meanwhile);
              && |rows| == |now|
              && forall i :: 0 <= i < |now| ==>
                   rows[i] == if Accepted(c) && luck.applied && now[i].host == c.host && now[i].project == project
                                 && now[i].id == id && now[i].status == Live
                              then now[i].(status := if luck.removes then Removed else Revoked) else now[i]
    {
      Meanwhile(luck.meanwhile);
      if !Accepted(c) || !luck.applied { return false; }
      var before := rows;
      var dead := if luck.removes then Removed else Revoked;
      rows := seq(|before|, i requires 0 <= i < |before| =>
        var x := before[i];
        if x.host == c.host && x.project == project && x.id == id && x.status.Live? then x.(status := dead) else x);
      assert forall i :: 0 <= i < |before| ==> SameCredential(before[i], rows[i]);
      return luck.reported;
    }

    /** The server's side of a mint: a row with an id and a secret never used before. */
    method Create(c: Client, project: string, luck: MintLuck) returns (created: bool)
      requires WellFormed(rows)
      modifies this
      ensures WellFormed(rows) && Evolves(old(rows), rows)
      ensures var now := After(old(rows), luck.request.meanwhile);
              && created == (Accepted(c) && luck.request.applied && Unused(now, c.host, luck.id, luck.secret))
              && rows == if created then now + [Row(c.host, project, luck.id, luck.secret, "cli", Live)] else now
    {
      Meanwhile(luck.request.meanwhile);
      created := Accepted(c) && luck.request.applied && luck.id != "" && luck.secret != ""
                 && (forall i :: 0 <= i < |rows| ==> rows[i].secret != luck.secret)
                 && (forall i :: 0 <= i < |rows| && rows[i].host == c.host ==> rows[i].id != luck.id);
      if created {
        rows := rows + [Row(c.host, project, luck.id, luck.secret, CLI_NAME, Live)];
      }
    }

    /** POST a credential.  The row may be created although its answer is lost. */
    method Mint(c: Client, project: string, role: string, luck: MintLuck) returns (r: Result<Minted, MintError>)
      requires WellFormed(rows)
      modifies this
      ensures WellFormed(rows) && Evolves(old(rows), rows)
      ensures var now := After(old(rows), luck.request.meanwhile);
              rows == now || rows == WithFresh(old(rows), c, project, luck)
      ensures Grants(old(rows), c, luck) ==>
                && r == Success(Minted(luck.secret, if luck.idShown then luck.id else ""))
                && rows == WithFresh(old(rows), c, project, luck) && !IsLive(old(rows), luck.secret)
      ensures !Grants(old(rows), c, luck) ==>
                r == Failure(if luck.reply == NotFound then Unsupported
                             else if luck.reply == BadRequest && role == "member" then DeniedToRole else MintFault)
    {
      ghost var now := After(rows, luck.request.meanwhile);
      if Unused(now, c.host, luck.id, luck.secret) { SecretWasNew(rows, now, luck.secret); }
      var created := Create(c, project, luck);
      match luck.reply {
        case Secret =>
          if created { return Success(Minted(luck.secret, if luck.idShown then luck.id else "")); }
          return Failure(MintFault);
        case NotFound => return Failure(Unsupported);
        case BadRequest => return Failure(if role == "member" then DeniedToRole else MintFault);
        case _ => return Failure(MintFault);
      }
    }
  }

  /** The table once the server has made the row of a mint. */
  function WithFresh(rows: seq<Row>, c: Client, project: string, luck: MintLuck): seq<Row>
    requires WellFormed(rows)
  {
    After(rows, luck.request.meanwhile) + [Row(c.host, project, luck.id, luck.secret, "cli", Live)]
  }

  /** A mint request that is applied and answered with its secret. */
  predicate Grants(rows: seq<Row>, c: Client, luck: MintLuck)
    requires WellFormed(rows)
  {
    && c.token.Token? && c.token.host == c.host
    && luck.request.applied && Unused(After(rows, luck.request.meanwhile), c.host, luck.id, luck.secret)
    && luck.reply == Secret
  }

  /** The row a mint answered for; its id may be missing from the answer. */
  predicate Issued(x: Row, c: Client, project: string, m: Minted) {
    x.host == c.host && x.project == project && x.secret == m.secret && x.name == CLI_NAME && x.status.Live?
    && (m.id == "" || m.id == x.id)
  }

  // ---------- revoking the credential a config holds ----------

  /** x is the credential a config knows by its project, secret and, when stored, id. */
  predicate Names(x: Row, host: string, project: string, id: string, secret: string) {
    x.host == host && x.project == project && x.secret == secret && x.name == CLI_NAME && (id == "" || x.id == id)
  }

  /** No credential named so is live. */
  predicate Settled(rows: seq<Row>, host: string, project: string, id: string, secret: string) {
    forall i :: 0 <= i < |rows| && Names(rows[i], host, project, id, secret) ==> !rows[i].status.Live?
  }

  /** The id of the one live row with the CLI's name and the secret's hint; "" when there is none. */
  method ResolveCredentialId(net: Internet, c: Client, project: string, secret: string, luck: Luck)
    returns (r: Result<string, RevokeError>)
    requires WellFormed(net.rows)
    modifies net
    ensures WellFormed(net.rows) && Evolves(old(net.rows), net.rows)
    ensures r.Success? && r.value == "" ==> Settled(net.rows, c.host, project, "", secret)
    ensures r.Success? && r.value != "" ==>
              forall x :: x in net.rows && Names(x, c.host, project, "", secret) && x.status.Live? ==> x.id == r.value
    ensures net.rows == if |secret| < 4 then old(net.rows) else After(old(net.rows), luck.meanwhile)
    ensures |secret| < 4 <==> r == Failure(TooShort)
    ensures r == Failure(Unreadable) <==> |secret| >= 4 && !(Accepted(c) && luck.applied && luck.reported)
    ensures |secret| >= 4 && Accepted(c) && luck.applied && luck.reported ==>
              && (r == Success("") <==> forall i :: 0 <= i < |net.rows| ==> !Hit(net.rows[i], c.host, project, secret))
              && (forall i :: OnlyHit(net.rows, c.host, project, secret, i) ==> r == Success(net.rows[i].id))
              && (r.Success? && r.value != "" ==> exists i :: OnlyHit(net.rows, c.host, project, secret, i))
  {
    if |secret| < 4 { return Failure(TooShort); }
    var hint := secret[|secret| - 4..];
    var listed := net.List(c, project, luck);
    if listed.None? { return Failure(Unreadable); }
    var rows := listed.value;
    var matches: seq<string> := [];
    for i := 0 to |rows|
      invariant matches == MatchIds(rows[..i], hint)
    {
      assert rows[..i + 1][..i] == rows[..i];
      if rows[i].status.Live? && rows[i].name == CLI_NAME && Hint(rows[i].secret) == hint {
        matches := matches + [rows[i].id];
      }
    }
    assert rows[..|rows|] == rows;
    MatchesSettle(net.rows, c.host, project, secret);
    HitsAreMatched(net.rows, c.host, project, secret);
    if |matches| == 0 { return Success(""); }
    if |matches| == 1 { return Success(matches[0]); }
    return Failure(Ambiguous(|matches|));
  }

  /** A live row with the CLI's name whose secret ends like this one. */
  predicate Hit(x: Row, host: string, project: string, secret: string)
    requires |secret| >= 4
  {
    && x.host == host && x.project == project && x.name == "cli" && x.status == Live
    && |x.secret| >= 4 && x.secret[|x.secret| - 4..] == secret[|secret| - 4..]
  }

  predicate OnlyHit(rows: seq<Row>, host: string, project: string, secret: string, i: int)
    requires |secret| >= 4
  {
    0 <= i < |rows| && Hit(rows[i], host, project, secret)
    && forall j :: 0 <= j < |rows| && Hit(rows[j], host, project, secret) ==> j == i
  }

  lemma HitsAreMatched(rows: seq<Row>, host: string, project: string, secret: string)
    requires |secret| >= 4
    ensures var ids := MatchIds(Listed(rows, host, project), Hint(secret));
            && (ids == [] <==> forall i :: 0 <= i < |rows| ==> !Hit(rows[i], host, project, secret))
            && (|ids| == 1 ==> exists i :: OnlyHit(rows, host, project, secret, i))
            && (forall i :: OnlyHit(rows, host, project, secret, i) ==> ids == [rows[i].id])
  {
    hide Hit, MatchIds, Listed, Hint;
    NoHitNoMatch(rows, host, project, secret);
    if |MatchIds(Listed(rows, host, project), Hint(secret))| == 1 { OneMatchOneHit(rows, host, project, secret); }
    forall i | OnlyHit(rows, host, project, secret, i)
      ensures MatchIds(Listed(rows, host, project), Hint(secret)) == [rows[i].id]
    {
      OneHitOneMatch(rows, host, project, secret, i);
    }
  }

  lemma {:induction false} NoHitNoMatch(rows: seq<Row>, host: string, project: string, secret: string)
    requires |secret| >= 4
    ensures MatchIds(Listed(rows, host, project), Hint(secret)) == [] <==>
            forall i :: 0 <= i < |rows| ==> !Hit(rows[i], host, project, secret)
  {
    hide Hit, Hint;
    if rows != [] {
      var before, x := rows[..|rows| - 1], rows[|rows| - 1];
      NoHitNoMatch(before, host, project, secret);
      LastMatch(before, x, host, project, secret);
      assert before + [x] == rows;
    }
  }

  lemma {:induction false} OneMatchOneHit(rows: seq<Row>, host: string, project: string, secret: string)
    requires |secret| >= 4 && |MatchIds(Listed(rows, host, project), Hint(secret))| == 1
    ensures exists i :: OnlyHit(rows, host, project, secret, i)
  {
    hide Hit, Hint, MatchIds, Listed;
    if rows == [] {
      NoHitNoMatch(rows, host, project, secret);
    } else {
      var before, x := rows[..|rows| - 1], rows[|rows| - 1];
      LastMatch(before, x, host, project, secret);
      assert before + [x] == rows;
      if Hit(x, host, project, secret) {
        NoHitNoMatch(before, host, project, secret);
        assert forall j :: 0 <= j < |before| ==> before[j] == rows[j];
        assert OnlyHit(rows, host, project, secret, |before|);
      } else {
        OneMatchOneHit(before, host, project, secret);
        var i :| OnlyHit(before, host, project, secret, i);
        assert OnlyHit(rows, host, project, secret, i);
      }
    }
  }

  lemma {:induction false} OneHitOneMatch(rows: seq<Row>, host: string, project: string, secret: string, i: int)
    requires |secret| >= 4 && OnlyHit(rows, host, project, secret, i)
    ensures MatchIds(Listed(rows, host, project), Hint(secret)) == [rows[i].id]
  {
    hide Hit, Hint, MatchIds, Listed;
    var before, x := rows[..|rows| - 1], rows[|rows| - 1];
    LastMatch(before, x, host, project, secret);
    assert before + [x] == rows;
    assert forall j :: 0 <= j < |before| ==> before[j] == rows[j];
    if i == |before| {
      NoHitNoMatch(before, host, project, secret);
    } else {
      OneHitOneMatch(before, host, project, secret, i);
    }
  }

  lemma LastMatch(before: seq<Row>, x: Row, host: string, project: string, secret: string)
    requires |secret| >= 4
    ensures MatchIds(Listed(before + [x], host, project), Hint(secret)) ==
            MatchIds(Listed(before, host, project), Hint(secret)) + if Hit(x, host, project, secret) then [x.id] else []
  {
    var listed := Listed(before, host, project);
    assert (before + [x])[..|before|] == before;
    assert (listed + [x])[..|listed|] == listed;
    assert MatchIds(listed, Hint(secret)) + [] == MatchIds(listed, Hint(secret));
  }

  predicate Matches(x: Row, hint: string) { x.status.Live? && x.name == CLI_NAME && Hint(x.secret) == hint }

  function MatchIds(rows: seq<Row>, hint: string): seq<string> {
    if rows == [] then []
    else
      var x, before := rows[|rows| - 1], MatchIds(rows[..|rows| - 1], hint);
      if Matches(x, hint) then before + [x.id] else before
  }

  lemma {:induction false} MatchIdsAreComplete(rows: seq<Row>, hint: string)
    ensures forall x :: x in rows && Matches(x, hint) ==> x.id in MatchIds(rows, hint)
    ensures forall id :: id in MatchIds(rows, hint) ==> exists x :: x in rows && x.id == id
  {
    if rows != [] {
      var before := rows[..|rows| - 1];
      MatchIdsAreComplete(before, hint);
      assert rows == before + [rows[|rows| - 1]];
      forall id | id in MatchIds(before, hint) ensures exists x :: x in rows && x.id == id {
        var x :| x in before && x.id == id;
        assert x in rows;
      }
    }
  }

  /** A live credential with this secret is among the matches; so none, or the one, is it. */
  lemma MatchesSettle(rows: seq<Row>, host: string, project: string, secret: string)
    requires WellFormed(rows)
    ensures var ids := MatchIds(Listed(rows, host, project), Hint(secret));
            && (forall x :: x in rows && Names(x, host, project, "", secret) && x.status.Live? ==> x.id in ids)
            && (ids == [] ==> Settled(rows, host, project, "", secret))
            && "" !in ids
  {
    var listed := Listed(rows, host, project);
    ListedIsComplete(rows, host, project);
    MatchIdsAreComplete(listed, Hint(secret));
    forall x | x in rows && Names(x, host, project, "", secret) && x.status.Live?
      ensures x.id in MatchIds(listed, Hint(secret))
    {
      assert x in listed && Matches(x, Hint(secret));
    }
  }

  /** Succeeds only when the credential is provably gone: deleted, revoked, or absent. */
  method RevokeManagedCredential(net: Internet, c: Client, project: string, credentialId: string, secret: string,
                                 luck: RevokeLuck) returns (r: Option<RevokeError>)
    requires WellFormed(net.rows)
    modifies net
    ensures WellFormed(net.rows) && Evolves(old(net.rows), net.rows)
    ensures r.None? ==> Settled(net.rows, c.host, project, credentialId, secret) || !Known(old(net.rows), secret)
    ensures !Accepted(c) ==> r.Some?
    ensures credentialId != "" ==>
              (r.None? <==>
               && Accepted(c)
               && ((luck.delete.applied && luck.delete.reported)
                   || (luck.confirm.applied && luck.confirm.reported && NoneLive(net.rows, c.host, project, credentialId))))
    ensures RevokeArrives(old(net.rows), c, project, credentialId, secret, luck) ==> r.None?
  {
    var id := credentialId;
    if id == "" {
      ghost var now := After(net.rows, luck.resolve.meanwhile);
      var resolved := ResolveCredentialId(net, c, project, secret, luck.resolve);
      if resolved.Failure? { return Some(resolved.error); }
      if resolved.value == "" { return None; }
      id := resolved.value;
    }
    ghost var named := net.rows;
    r := DeleteById(net, c, project, id, luck);
    if r.None? {
      DeadIdSettles(old(net.rows), named, net.rows, c.host, project, credentialId, id, secret);
    }
  }

  /** DELETE, and when that is not answered the list decides. */
  method DeleteById(net: Internet, c: Client, project: string, id: string, luck: RevokeLuck) returns (r: Option<RevokeError>)
    requires WellFormed(net.rows)
    modifies net
    ensures WellFormed(net.rows) && Evolves(old(net.rows), net.rows)
    ensures r.None? ==> NoneLive(net.rows, c.host, project, id)
    ensures r.None? <==>
            && Accepted(c)
            && ((luck.delete.applied && luck.delete.reported)
                || (luck.confirm.applied && luck.confirm.reported && NoneLive(net.rows, c.host, project, id)))
    ensures DeleteArrives(old(net.rows), c, project, id, luck) ==> r.None?
  {
    ghost var start := net.rows;
    var ok := net.Delete(c, project, id, luck.delete);
    if ok { return None; }
    ghost var deleted := net.rows;
    r := ConfirmGone(net, c, project, id, luck.confirm);
    if DeleteArrives(start, c, project, id, luck) {
      assert NoneLive(deleted, c.host, project, id);
      NoneLiveStays(start, deleted, net.rows, c.host, project, id);
    }
  }

  /** The delete is applied, and reported or confirmed by the list. */
  ghost predicate DeleteArrives(rows: seq<Row>, c: Client, project: string, id: string, luck: RevokeLuck) {
    && c.token.Token? && c.token.host == c.host
    && luck.delete.applied && (luck.delete.reported || (luck.confirm.applied && luck.confirm.reported))
    && exists i :: 0 <= i < |rows| && rows[i].host == c.host && rows[i].project == project && rows[i].id == id
  }

  /** So is it for a config without an id when the list shows at most one row that can be meant. */
  ghost predicate RevokeArrives(rows: seq<Row>, c: Client, project: string, credentialId: string, secret: string, luck: RevokeLuck)
    requires WellFormed(rows)
  {
    if credentialId != "" then DeleteArrives(rows, c, project, credentialId, luck)
    else
      && |secret| >= 4 && c.token.Token? && c.token.host == c.host && luck.resolve.applied && luck.resolve.reported
      && var now := After(rows, luck.resolve.meanwhile);
         forall i :: 0 <= i < |now| && Hit(now[i], c.host, project, secret) ==>
           OnlyHit(now, c.host, project, secret, i) && DeleteArrives(now, c, project, now[i].id, luck)
  }

  /** After a failed delete: gone when the list shows the row revoked or does not show it. */
  method ConfirmGone(net: Internet, c: Client, project: string, id: string, luck: Luck) returns (r: Option<RevokeError>)
    requires WellFormed(net.rows)
    modifies net
    ensures WellFormed(net.rows) && Evolves(old(net.rows), net.rows)
    ensures net.rows == After(old(net.rows), luck.meanwhile)
    ensures r == if !(Accepted(c) && luck.applied && luck.reported) then Some(Unconfirmed)
                 else if NoneLive(net.rows, c.host, project, id) then None else Some(StillLive)
  {
    var rows := net.List(c, project, luck);
    if rows.None? { return Some(Unconfirmed); }
    ListedIsComplete(net.rows, c.host, project);
    for i := 0 to |rows.value|
      invariant forall k :: 0 <= k < i ==> rows.value[k].id != id
    {
      if rows.value[i].id != id { continue; }
      if !rows.value[i].status.Revoked? {
        assert rows.value[i] in net.rows;
        return Some(StillLive);
      }
      OneRowPerId(net.rows, rows.value[i]);
      return None;
    }
    return None;
  }

  /** No live row of this project has this id. */
  predicate NoneLive(rows: seq<Row>, host: string, project: string, id: string) {
    forall x :: x in rows && x.host == host && x.project == project && x.id == id ==> x.status != Live
  }

  /** An id that named a row once names no other later. */
  lemma NoneLiveStays(start: seq<Row>, rows: seq<Row>, later: seq<Row>, host: string, project: string, id: string)
    requires NoneLive(rows, host, project, id) && Evolves(start, rows) && Evolves(rows, later) && WellFormed(later)
    requires exists i :: 0 <= i < |start| && start[i].host == host && start[i].project == project && start[i].id == id
    ensures NoneLive(later, host, project, id)
  {
    var i :| 0 <= i < |start| && start[i].host == host && start[i].project == project && start[i].id == id;
    assert SameCredential(start[i], rows[i]) && SameCredential(rows[i], later[i]);
    assert rows[i] in rows && later[i] in later;
    OneRowPerId(later, later[i]);
  }

  lemma OneRowPerId(rows: seq<Row>, x: Row)
    requires WellFormed(rows) && x in rows
    ensures forall y :: y in rows && y.host == x.host && y.id == x.id ==> y == x
  {
  }

  predicate Known(rows: seq<Row>, secret: string) { exists i :: 0 <= i < |rows| && rows[i].secret == secret }

  lemma DeadIdSettles(start: seq<Row>, named: seq<Row>, rows: seq<Row>, host: string, project: string,
                      credentialId: string, id: string, secret: string)
    requires Evolves(start, named) && Evolves(named, rows) && WellFormed(rows)
    requires forall x :: x in rows && x.host == host && x.project == project && x.id == id ==> !x.status.Live?
    requires id != ""
    requires credentialId == id
             || (credentialId == "" && forall x :: x in named && Names(x, host, project, "", secret) && x.status.Live? ==> x.id == id)
    ensures Settled(rows, host, project, credentialId, secret) || !Known(start, secret)
  {
    if Known(start, secret) {
      var j :| 0 <= j < |start| && start[j].secret == secret;
      forall i | 0 <= i < |rows| && Names(rows[i], host, project, credentialId, secret) ensures !rows[i].status.Live? {
        assert SameCredential(start[j], named[j]) && SameCredential(named[j], rows[j]);
        assert i == j && rows[j] in rows && named[j] in named;
      }
    }
  }
}
