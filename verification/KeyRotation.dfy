/** Virtual keys and their secrets: create, rotate with a grace period, revoke, resolve. */
module KeyRotation {
  import opened Basics

  datatype Error = Disabled | KeyError | IntegrityError

  datatype Result<T> = Ok(value: T) | Err(error: Error)

  // The digest of a secret. A free constructor: no two secrets share one.
  datatype Digest = Sha256(plaintext: string)

  datatype Row = Row(keyId: string, hash: Digest, previous: Option<Digest>,
    expires: Option<int>, previousExpires: Option<int>, revoked: bool)

  // What a caller learns of the key behind a secret.
  datatype Identity = Identity(keyId: string, expires: Option<int>, previousExpires: Option<int>)

  // ---- The table ----

  function Find(rows: seq<Row>, keyId: string): (i: nat)
    ensures i <= |rows|
    ensures i < |rows| ==> rows[i].keyId == keyId
    ensures forall j :: 0 <= j < i ==> rows[j].keyId != keyId
  {
    if rows == [] || rows[0].keyId == keyId then 0 else 1 + Find(rows[1..], keyId)
  }

  predicate HasHash(rows: seq<Row>, digest: Digest) {
    exists i :: 0 <= i < |rows| && rows[i].hash == digest
  }

  function Create(rows: seq<Row>, keyId: string, secret: string, expires: Option<int>): Result<seq<Row>> {
    if Find(rows, keyId) < |rows| || HasHash(rows, Sha256(secret)) then Err(IntegrityError)
    else Ok(rows + [Row(keyId, Sha256(secret), None, expires, None, false)])
  }

  function Rotated(row: Row, secret: string, graceUntil: int): Row {
    row.(hash := Sha256(secret), previous := Some(row.hash), previousExpires := Some(graceUntil))
  }

  function Rotate(rows: seq<Row>, keyId: string, secret: string, graceUntil: int): Result<seq<Row>> {
    var i := Find(rows, keyId);
    if i == |rows| || rows[i].revoked then Err(KeyError)
    else if HasHash(rows, Sha256(secret)) && rows[i].hash != Sha256(secret) then Err(IntegrityError)
    else Ok(rows[i := Rotated(rows[i], secret, graceUntil)])
  }

  function Revoke(rows: seq<Row>, keyId: string): (seq<Row>, bool) {
    var i := Find(rows, keyId);
    if i == |rows| || rows[i].revoked then (rows, false)
    else (rows[i := rows[i].(revoked := true)], true)
  }

  predicate Carries(row: Row, digest: Digest) {
    row.hash == digest || row.previous == Some(digest)
  }

  // The first row the query returns.
  function Fetch(rows: seq<Row>, digest: Digest): (i: nat)
    ensures i <= |rows|
    ensures i < |rows| ==> Carries(rows[i], digest)
    ensures forall j :: 0 <= j < i ==> !Carries(rows[j], digest)
  {
    if rows == [] || Carries(rows[0], digest) then 0 else 1 + Fetch(rows[1..], digest)
  }

  function Shown(row: Row, digest: Digest): Identity {
    Identity(row.keyId,
      if row.previous == Some(digest) then row.previousExpires else row.expires,
      if digest == row.hash then row.previousExpires else None)
  }

  function Resolve(rows: seq<Row>, plaintext: string): Option<Identity> {
    var i := Fetch(rows, Sha256(plaintext));
    if plaintext == "" || i == |rows| || rows[i].revoked then None
    else Some(Shown(rows[i], Sha256(plaintext)))
  }

  // ---- Runs, and what they issued ----

  datatype Event =
    | Created(keyId: string, token: string, expires: Option<int>)
    | Rotates(keyId: string, token: string, graceUntil: int)
    | Revokes(keyId: string)

  function Secret(token: string): string {
    "dk_" + token
  }

  function Step(rows: seq<Row>, e: Event): seq<Row> {
    match e
    case Created(keyId, token, expires) =>
      (match Create(rows, keyId, Secret(token), expires) case Ok(next) => next case Err(_) => rows)
    case Rotates(keyId, token, graceUntil) =>
      (match Rotate(rows, keyId, Secret(token), graceUntil) case Ok(next) => next case Err(_) => rows)
    case Revokes(keyId) => Revoke(rows, keyId).0
  }

  function Run(es: seq<Event>): seq<Row> {
    if es == [] then [] else Step(Run(es[..|es| - 1]), es[|es| - 1])
  }

  // All a key ever was: its secrets, oldest first, and the last deadline set for the one before.
  datatype Life = Life(secrets: seq<string>, expires: Option<int>, deadline: Option<int>, revoked: bool)

  type Lives = map<string, Life>

  predicate Alive(h: Lives, keyId: string) {
    keyId in h && !h[keyId].revoked
  }

  // Asks nothing of any table: a key is born once, grows while it lives, and dies once.
  function Lived(h: Lives, e: Event): Lives {
    match e
    case Created(keyId, token, expires) =>
      if keyId in h then h else h[keyId := Life([Secret(token)], expires, None, false)]
    case Rotates(keyId, token, graceUntil) =>
      if !Alive(h, keyId) then h
      else h[keyId := h[keyId].(secrets := h[keyId].secrets + [Secret(token)], deadline := Some(graceUntil))]
    case Revokes(keyId) =>
      if !Alive(h, keyId) then h else h[keyId := h[keyId].(revoked := true)]
  }

  function History(es: seq<Event>): Lives {
    if es == [] then map[] else Lived(History(es[..|es| - 1]), es[|es| - 1])
  }

  // Every secret of the run is drawn once.
  ghost predicate Fresh(es: seq<Event>) {
    forall i, j :: 0 <= i < j < |es| && !es[i].Revokes? && !es[j].Revokes? ==> es[i].token != es[j].token
  }

  ghost predicate Drawn(es: seq<Event>, secret: string) {
    exists i :: 0 <= i < |es| && !es[i].Revokes? && Secret(es[i].token) == secret
  }

  // ---- The invariant ----

  function Last(xs: seq<string>, back: nat): string
    requires back < |xs|
  {
    xs[|xs| - 1 - back]
  }

  predicate Tells(row: Row, life: Life) {
    && |life.secrets| > 0
    && row.hash == Sha256(Last(life.secrets, 0))
    && row.previous == (if |life.secrets| > 1 then Some(Sha256(Last(life.secrets, 1))) else None)
    && row.expires == life.expires
    && row.previousExpires == life.deadline
    && row.revoked == life.revoked
  }

  ghost predicate RowsTell(rows: seq<Row>, h: Lives) {
    && (forall i :: 0 <= i < |rows| ==> rows[i].keyId in h && Tells(rows[i], h[rows[i].keyId]))
    && (forall k :: k in h ==> Find(rows, k) < |rows|)
    && (forall i :: 0 <= i < |rows| ==> Find(rows, rows[i].keyId) == i)
  }

  predicate IssuedAt(h: Lives, k: string, i: int, secret: string) {
    k in h && 0 <= i < |h[k].secrets| && h[k].secrets[i] == secret
  }

  // No secret was issued twice, to one key or to two, and none but drawn ones were.
  ghost predicate Apart(h: Lives) {
    forall k, l, i, j, s :: IssuedAt(h, k, i, s) && IssuedAt(h, l, j, s) ==> k == l && i == j
  }

  ghost predicate FromDraws(h: Lives, es: seq<Event>) {
    forall k, i, s :: IssuedAt(h, k, i, s) ==> Drawn(es, s)
  }

  lemma FindSnoc(rows: seq<Row>, row: Row, keyId: string)
    ensures Find(rows, keyId) < |rows| ==> Find(rows + [row], keyId) == Find(rows, keyId)
    ensures Find(rows, keyId) == |rows| && row.keyId == keyId ==> Find(rows + [row], keyId) == |rows|
  {
    var next, i := rows + [row], Find(rows + [row], keyId);
    assert forall j :: 0 <= j < |rows| ==> next[j] == rows[j];
    assert next[|rows|] == row;
    if Find(rows, keyId) < |rows| {
      assert next[Find(rows, keyId)].keyId == keyId;
    }
  }

  lemma FindUpdate(rows: seq<Row>, i: nat, row: Row, keyId: string)
    requires i < |rows| && row.keyId == rows[i].keyId
    ensures Find(rows[i := row], keyId) == Find(rows, keyId)
  {
    var next := rows[i := row];
    assert forall j :: 0 <= j < |rows| ==> next[j].keyId == rows[j].keyId;
  }

  // A secret that was never drawn is the current one of no row.
  lemma NewHash(rows: seq<Row>, h: Lives, es: seq<Event>, secret: string)
    requires RowsTell(rows, h) && FromDraws(h, es) && !Drawn(es, secret)
    ensures !HasHash(rows, Sha256(secret))
  {
    forall i | 0 <= i < |rows| ensures rows[i].hash != Sha256(secret) {
      var life := h[rows[i].keyId];
      assert IssuedAt(h, rows[i].keyId, |life.secrets| - 1, Last(life.secrets, 0));
    }
  }

  lemma AddTells(rows: seq<Row>, h: Lives, row: Row, life: Life)
    requires RowsTell(rows, h) && row.keyId !in h && Tells(row, life)
    ensures RowsTell(rows + [row], h[row.keyId := life])
  {
    var next := rows + [row];
    forall k | k in h[row.keyId := life] ensures Find(next, k) < |next| {
      FindSnoc(rows, row, k);
    }
    forall i | 0 <= i < |next| ensures Find(next, next[i].keyId) == i {
      FindSnoc(rows, row, next[i].keyId);
    }
  }

  lemma CreateTells(rows: seq<Row>, h: Lives, keyId: string, token: string, expires: Option<int>)
    requires RowsTell(rows, h) && !HasHash(rows, Sha256(Secret(token)))
    ensures RowsTell(Step(rows, Created(keyId, token, expires)), Lived(h, Created(keyId, token, expires)))
  {
    if keyId !in h {
      var row := Row(keyId, Sha256(Secret(token)), None, expires, None, false);
      AddTells(rows, h, row, Life([Secret(token)], expires, None, false));
    }
  }

  lemma ChangeTells(rows: seq<Row>, h: Lives, i: nat, row: Row, life: Life)
    requires RowsTell(rows, h) && i < |rows| && row.keyId == rows[i].keyId && Tells(row, life)
    ensures RowsTell(rows[i := row], h[row.keyId := life])
  {
    var next, after := rows[i := row], h[row.keyId := life];
    forall k | k in after ensures Find(next, k) < |next| {
      FindUpdate(rows, i, row, k);
    }
    forall j | 0 <= j < |next| ensures Find(next, next[j].keyId) == j && Tells(next[j], after[next[j].keyId]) {
      FindUpdate(rows, i, row, next[j].keyId);
    }
  }

  lemma StepTells(rows: seq<Row>, h: Lives, e: Event)
    requires RowsTell(rows, h)
    requires !e.Revokes? ==> !HasHash(rows, Sha256(Secret(e.token)))
    ensures RowsTell(Step(rows, e), Lived(h, e))
  {
    match e
    case Created(keyId, token, expires) => CreateTells(rows, h, keyId, token, expires);
    case Rotates(keyId, token, graceUntil) =>
      var i := Find(rows, keyId);
      if Alive(h, keyId) {
        ChangeTells(rows, h, i, Rotated(rows[i], Secret(token), graceUntil), Lived(h, e)[keyId]);
      }
    case Revokes(keyId) =>
      var i := Find(rows, keyId);
      if Alive(h, keyId) {
        ChangeTells(rows, h, i, rows[i].(revoked := true), Lived(h, e)[keyId]);
      }
  }

  // What an event issues, it issues once and to one key.
  lemma IssuedBy(h: Lives, e: Event, k: string, i: int, s: string)
    requires IssuedAt(Lived(h, e), k, i, s)
    ensures IssuedAt(h, k, i, s)
      || (!e.Revokes? && k == e.keyId && s == Secret(e.token) && i == |Lived(h, e)[k].secrets| - 1)
  {
  }

  lemma StepApart(h: Lives, es: seq<Event>, e: Event)
    requires Apart(h) && FromDraws(h, es)
    requires !e.Revokes? ==> !Drawn(es, Secret(e.token))
    ensures Apart(Lived(h, e)) && FromDraws(Lived(h, e), es + [e])
  {
    var next := Lived(h, e);
    forall k, l, i, j, s | IssuedAt(next, k, i, s) && IssuedAt(next, l, j, s) ensures k == l && i == j {
      IssuedBy(h, e, k, i, s);
      IssuedBy(h, e, l, j, s);
    }
    forall k, i, s | IssuedAt(next, k, i, s) ensures Drawn(es + [e], s) {
      IssuedBy(h, e, k, i, s);
      if IssuedAt(h, k, i, s) {
        DrawnStays(es, e, s);
      } else {
        assert (es + [e])[|es|] == e;
      }
    }
  }

  lemma DrawnStays(es: seq<Event>, e: Event, s: string)
    requires Drawn(es, s)
    ensures Drawn(es + [e], s)
  {
    var i :| 0 <= i < |es| && !es[i].Revokes? && Secret(es[i].token) == s;
    assert (es + [e])[i] == es[i];
  }

  lemma SecretsDiffer(a: string, b: string)
    requires a != b
    ensures Secret(a) != Secret(b)
  {
    assert Secret(a)[3..] == a && Secret(b)[3..] == b;
  }

  lemma {:induction false} RunKeepsInv(es: seq<Event>)
    requires Fresh(es)
    ensures RowsTell(Run(es), History(es)) && Apart(History(es)) && FromDraws(History(es), es)
  {
    if es != [] {
      var before, e := es[..|es| - 1], es[|es| - 1];
      RunKeepsInv(before);
      assert es == before + [e];
      if !e.Revokes? {
        forall i | 0 <= i < |before| && !before[i].Revokes? ensures Secret(before[i].token) != Secret(e.token) {
          assert es[i] == before[i];
          SecretsDiffer(before[i].token, e.token);
        }
        NewHash(Run(before), History(before), before, Secret(e.token));
      }
      StepTells(Run(before), History(before), e);
      StepApart(History(before), before, e);
    }
  }

  // ---- What a secret resolves to ----

  // The row of a live key answers for its last two secrets.
  ghost predicate Answers(h: Lives, k: string, back: nat, secret: string) {
    Alive(h, k) && back <= 1 && IssuedAt(h, k, |h[k].secrets| - 1 - back, secret)
  }

  lemma CarriedSecret(rows: seq<Row>, h: Lives, i: nat, secret: string)
    requires RowsTell(rows, h) && i < |rows| && Carries(rows[i], Sha256(secret))
    ensures var k := rows[i].keyId; var n := |h[k].secrets|;
      IssuedAt(h, k, n - 1, secret) || IssuedAt(h, k, n - 2, secret)
  {
  }

  lemma OnlyRow(rows: seq<Row>, h: Lives, k: string, secret: string)
    requires RowsTell(rows, h) && Apart(h) && k in h
    requires IssuedAt(h, k, |h[k].secrets| - 1, secret) || IssuedAt(h, k, |h[k].secrets| - 2, secret)
    ensures Fetch(rows, Sha256(secret)) == Find(rows, k)
  {
    var i, at := Find(rows, k), Fetch(rows, Sha256(secret));
    assert Carries(rows[i], Sha256(secret));
    assert at <= i < |rows|;
    CarriedSecret(rows, h, at, secret);
  }

  /** Over every run with fresh secrets: the current secret of a live key resolves to that
      key, with the key's own expiry and the deadline of the secret before it; that secret
      resolves to the same key, with the deadline as its expiry. */
  lemma LiveSecretsResolve(es: seq<Event>, k: string)
    requires Fresh(es) && Alive(History(es), k)
    ensures var life := History(es)[k];
      && |life.secrets| > 0
      && Resolve(Run(es), Last(life.secrets, 0)) == Some(Identity(k, life.expires, life.deadline))
      && (|life.secrets| > 1 ==> Resolve(Run(es), Last(life.secrets, 1)) == Some(Identity(k, life.deadline, None)))
  {
    RunKeepsInv(es);
    var rows, h := Run(es), History(es);
    var secrets := h[k].secrets;
    var row := rows[Find(rows, k)];
    assert Tells(row, h[k]);
    assert IssuedAt(h, k, |secrets| - 1, Last(secrets, 0));
    OnlyRow(rows, h, k, Last(secrets, 0));
    NeverEmpty(es, k, |secrets| - 1);
    if |secrets| > 1 {
      assert IssuedAt(h, k, |secrets| - 2, Last(secrets, 1));
      assert Last(secrets, 0) != Last(secrets, 1);
      OnlyRow(rows, h, k, Last(secrets, 1));
      NeverEmpty(es, k, |secrets| - 2);
    }
  }

  lemma {:induction false} NeverEmpty(es: seq<Event>, k: string, i: int)
    requires Fresh(es) && k in History(es) && 0 <= i < |History(es)[k].secrets|
    ensures History(es)[k].secrets[i] != ""
  {
    RunKeepsInv(es);
    var s := History(es)[k].secrets[i];
    assert IssuedAt(History(es), k, i, s);
    var j :| 0 <= j < |es| && !es[j].Revokes? && Secret(es[j].token) == s;
    assert |s| >= 3;
  }

  /** Over every such run, nothing else resolves: not a secret two or more rotations old,
      not any secret of a revoked key, not one that was never issued. A secret that
      resolves belongs to the one live key it was issued to. */
  lemma NothingElseResolves(es: seq<Event>, secret: string)
    requires Fresh(es) && Resolve(Run(es), secret).Some?
    ensures var h, k := History(es), Resolve(Run(es), secret).value.keyId;
      && Alive(h, k)
      && (Answers(h, k, 0, secret) || Answers(h, k, 1, secret))
      && (forall l, i :: IssuedAt(h, l, i, secret) ==> l == k && i >= |h[k].secrets| - 2)
  {
    RunKeepsInv(es);
    var rows, h := Run(es), History(es);
    hide Run, History;
    OnlyLiveResolve(rows, h, secret);
  }

  lemma OnlyLiveResolve(rows: seq<Row>, h: Lives, secret: string)
    requires RowsTell(rows, h) && Apart(h) && Resolve(rows, secret).Some?
    ensures var k := Resolve(rows, secret).value.keyId;
      && Alive(h, k)
      && (Answers(h, k, 0, secret) || Answers(h, k, 1, secret))
      && (forall l, i :: IssuedAt(h, l, i, secret) ==> l == k && i >= |h[k].secrets| - 2)
  {
    CarriedSecret(rows, h, Fetch(rows, Sha256(secret)), secret);
  }

  lemma {:induction false} LivedOn(h: Lives, es: seq<Event>, k: string)
    requires k in h && h[k].revoked
    ensures k in After(h, es) && After(h, es)[k] == h[k]
    decreases |es|
  {
    if es != [] {
      LivedOn(h, es[..|es| - 1], k);
    }
  }

  function After(h: Lives, es: seq<Event>): Lives
    decreases |es|
  {
    if es == [] then h else Lived(After(h, es[..|es| - 1]), es[|es| - 1])
  }

  lemma {:induction false} HistoryConcat(es: seq<Event>, more: seq<Event>)
    ensures History(es + more) == After(History(es), more)
    decreases |more|
  {
    if more == [] {
      assert es + more == es;
    } else {
      var n := |more| - 1;
      assert (es + more)[..|es| + n] == es + more[..n];
      HistoryConcat(es, more[..n]);
    }
  }

  /** Revocation is for ever: whatever happens later, none of the secrets the key had ever
      resolves again. */
  lemma RevokedStaysRevoked(es: seq<Event>, more: seq<Event>, k: string, i: nat)
    requires Fresh(es + more)
    requires k in History(es) && History(es)[k].revoked && i < |History(es)[k].secrets|
    ensures Resolve(Run(es + more), History(es)[k].secrets[i]) == None
  {
    var secret := History(es)[k].secrets[i];
    HistoryConcat(es, more);
    LivedOn(History(es), more, k);
    if Resolve(Run(es + more), secret).Some? {
      NothingElseResolves(es + more, secret);
      assert IssuedAt(History(es + more), k, i, secret);
    }
  }

  /** Freshness is needed: a second key given the secret that another key used before its
      rotation is accepted, since only current digests are unique, and the table then has
      two rows for one secret. */
  lemma ReusedSecretIsShared()
    ensures var es := [Created("a", "x", None), Rotates("a", "y", 5), Created("b", "x", None)];
      && |Run(es)| == 2
      && Carries(Run(es)[0], Sha256(Secret("x"))) && Carries(Run(es)[1], Sha256(Secret("x")))
      && Resolve(Run(es), Secret("x")) == Some(Identity("a", Some(5), None))
  {
    var a, b, c := Created("a", "x", None), Rotates("a", "y", 5), Created("b", "x", None);
    var es := [a, b, c];
    assert es[..2] == [a, b] && [a, b][..1] == [a] && [a][..0] == [];
    assert Run([]) == [];
    var ra := Row("a", Sha256(Secret("x")), None, None, None, false);
    assert Run([a]) == [ra];
    SecretsDiffer("x", "y");
    var rb := Rotated(ra, Secret("y"), 5);
    assert Run([a, b]) == [rb];
    assert Run(es) == [rb, Row("b", Sha256(Secret("x")), None, None, None, false)];
  }

  // ---- What the operations answer ----

  ghost predicate UniqueKeys(rows: seq<Row>) {
    forall i, j :: 0 <= i < j < |rows| ==> rows[i].keyId != rows[j].keyId && rows[i].hash != rows[j].hash
  }

  predicate IsLive(row: Row, keyId: string) {
    row.keyId == keyId && !row.revoked
  }

  ghost predicate LiveKey(rows: seq<Row>, keyId: string) {
    exists i :: 0 <= i < |rows| && IsLive(rows[i], keyId)
  }

  // Another row than the live one of this key has the digest as its current one.
  ghost predicate TakenByAnother(rows: seq<Row>, keyId: string, digest: Digest) {
    exists i :: 0 <= i < |rows| && rows[i].hash == digest && rows[i].keyId != keyId
  }

  lemma FoundIfLive(rows: seq<Row>, keyId: string)
    requires UniqueKeys(rows)
    ensures var i := Find(rows, keyId);
      LiveKey(rows, keyId) <==> i < |rows| && !rows[i].revoked
    ensures forall j :: 0 <= j < |rows| && rows[j].keyId == keyId ==> j == Find(rows, keyId)
  {
    var i := Find(rows, keyId);
    if i < |rows| && !rows[i].revoked {
      assert IsLive(rows[i], keyId);
    }
  }

  /** Revoking answers yes exactly if the key was live, and then it no longer is. Rotating
      raises KeyError exactly if no live key has the id, and otherwise fails exactly if the
      new digest is another key's current one. Creating fails exactly if the id or the digest
      is in use. */
  lemma AnswersTell(rows: seq<Row>, keyId: string, secret: string, expires: Option<int>, graceUntil: int)
    requires UniqueKeys(rows)
    ensures Revoke(rows, keyId).1 <==> LiveKey(rows, keyId)
    ensures !LiveKey(Revoke(rows, keyId).0, keyId)
    ensures Rotate(rows, keyId, secret, graceUntil) == Err(KeyError) <==> !LiveKey(rows, keyId)
    ensures Rotate(rows, keyId, secret, graceUntil) == Err(IntegrityError) <==>
            LiveKey(rows, keyId) && TakenByAnother(rows, keyId, Sha256(secret))
    ensures Create(rows, keyId, secret, expires) == Err(IntegrityError) <==>
            exists i :: 0 <= i < |rows| && (rows[i].keyId == keyId || rows[i].hash == Sha256(secret))
    ensures Rotate(rows, keyId, secret, graceUntil) != Err(Disabled)
    ensures Create(rows, keyId, secret, expires).Err? ==> Create(rows, keyId, secret, expires) == Err(IntegrityError)
  {
    FoundIfLive(rows, keyId);
    var i, next := Find(rows, keyId), Revoke(rows, keyId).0;
    forall j | 0 <= j < |next| ensures !IsLive(next[j], keyId) {
    }
  }

  lemma CreateKeepsUnique(rows: seq<Row>, keyId: string, secret: string, expires: Option<int>)
    requires UniqueKeys(rows) && Create(rows, keyId, secret, expires).Ok?
    ensures UniqueKeys(Create(rows, keyId, secret, expires).value)
  {
  }

  lemma RotateKeepsUnique(rows: seq<Row>, keyId: string, secret: string, graceUntil: int)
    requires UniqueKeys(rows) && Rotate(rows, keyId, secret, graceUntil).Ok?
    ensures UniqueKeys(Rotate(rows, keyId, secret, graceUntil).value)
  {
    var i := Find(rows, keyId);
    forall j | 0 <= j < |rows| && j != i ensures rows[j].hash != Sha256(secret) {
      assert j < i ==> rows[j].hash != rows[i].hash;
    }
  }

  lemma StepKeepsUnique(rows: seq<Row>, e: Event)
    requires UniqueKeys(rows)
    ensures UniqueKeys(Step(rows, e))
  {
    if e.Created? && Create(rows, e.keyId, Secret(e.token), e.expires).Ok? {
      CreateKeepsUnique(rows, e.keyId, Secret(e.token), e.expires);
    } else if e.Rotates? && Rotate(rows, e.keyId, Secret(e.token), e.graceUntil).Ok? {
      RotateKeepsUnique(rows, e.keyId, Secret(e.token), e.graceUntil);
    }
  }

  /** Over every run, fresh or not, each id has one row and each current digest one. */
  lemma {:induction false} KeysAreUnique(es: seq<Event>)
    ensures UniqueKeys(Run(es))
  {
    if es != [] {
      KeysAreUnique(es[..|es| - 1]);
      StepKeepsUnique(Run(es[..|es| - 1]), es[|es| - 1]);
    }
  }

  // No secret leads to two rows.
  ghost predicate Unshared(rows: seq<Row>) {
    forall i, j, digest :: 0 <= i < j < |rows| && Carries(rows[i], digest) ==> !Carries(rows[j], digest)
  }

  // Some row, other than the one at `but`, had this digest before it was last rotated.
  ghost predicate WasPrevious(rows: seq<Row>, digest: Digest, but: int) {
    exists i :: 0 <= i < |rows| && i != but && rows[i].previous == Some(digest)
  }

  // The event puts in force a secret that some other row still has as its previous one.
  ghost predicate Reuses(rows: seq<Row>, e: Event) {
    match e
    case Created(keyId, token, expires) =>
      Create(rows, keyId, Secret(token), expires).Ok? && WasPrevious(rows, Sha256(Secret(token)), -1)
    case Rotates(keyId, token, graceUntil) =>
      Rotate(rows, keyId, Secret(token), graceUntil).Ok?
      && WasPrevious(rows, Sha256(Secret(token)), Find(rows, keyId))
    case Revokes(_) => false
  }

  lemma CarriesApart(rows: seq<Row>, i: nat, j: nat, digest: Digest)
    requires Unshared(rows) && i < |rows| && j < |rows| && i != j && Carries(rows[i], digest)
    ensures !Carries(rows[j], digest)
  {
  }

  // A new last row, or row i rewritten, carrying what row i did and one digest more.
  lemma OneRowChanged(rows: seq<Row>, i: nat, row: Row, digest: Digest)
    requires Unshared(rows) && i <= |rows| && row.hash == digest
    requires i < |rows| ==> row.previous == Some(rows[i].hash)
    requires i == |rows| ==> row.previous == None
    requires forall j :: 0 <= j < |rows| && j != i ==> rows[j].hash != digest
    ensures Unshared(rows[..i] + [row] + if i < |rows| then rows[i + 1..] else []) <==> !WasPrevious(rows, digest, i)
  {
    var next := rows[..i] + [row] + if i < |rows| then rows[i + 1..] else [];
    assert forall j :: 0 <= j < |rows| && j != i ==> next[j] == rows[j];
    assert next[i] == row;
    if WasPrevious(rows, digest, i) {
      var j :| 0 <= j < |rows| && j != i && rows[j].previous == Some(digest);
      assert Carries(next[i], digest) && Carries(next[j], digest);
      if Unshared(next) {
        CarriesApart(next, i, j, digest);
      }
    } else {
      forall j, d | 0 <= j < |rows| && j != i && Carries(row, d) ensures !Carries(rows[j], d) {
        if d != digest {
          CarriesApart(rows, i, j, d);
        }
      }
    }
  }

  lemma CreateSharesIff(rows: seq<Row>, keyId: string, secret: string, expires: Option<int>)
    requires Unshared(rows) && Create(rows, keyId, secret, expires).Ok?
    ensures Unshared(Create(rows, keyId, secret, expires).value) <==> !WasPrevious(rows, Sha256(secret), -1)
  {
    var row := Row(keyId, Sha256(secret), None, expires, None, false);
    OneRowChanged(rows, |rows|, row, Sha256(secret));
    hide Unshared;
    assert rows[..|rows|] + [row] + [] == rows + [row];
  }

  lemma RotateSharesIff(rows: seq<Row>, keyId: string, secret: string, graceUntil: int)
    requires Unshared(rows) && Rotate(rows, keyId, secret, graceUntil).Ok?
    ensures Unshared(Rotate(rows, keyId, secret, graceUntil).value)
       <==> !WasPrevious(rows, Sha256(secret), Find(rows, keyId))
  {
    var i, digest := Find(rows, keyId), Sha256(secret);
    var row := Rotated(rows[i], secret, graceUntil);
    forall j | 0 <= j < |rows| && j != i ensures rows[j].hash != digest {
      if rows[i].hash == digest {
        CarriesApart(rows, i, j, digest);
      }
    }
    OneRowChanged(rows, i, row, digest);
    hide Unshared, WasPrevious;
    assert rows[..i] + [row] + rows[i + 1..] == rows[i := row];
  }

  lemma RevokeSharesNothing(rows: seq<Row>, keyId: string)
    requires Unshared(rows)
    ensures Unshared(Revoke(rows, keyId).0)
  {
    var next := Revoke(rows, keyId).0;
    assert |next| == |rows|;
    forall i, digest | 0 <= i < |rows| ensures Carries(next[i], digest) == Carries(rows[i], digest) {
    }
    hide Revoke, Carries;
  }

  /** From a table where no secret leads to two rows, exactly such an event makes one. */
  lemma SharedIffReused(rows: seq<Row>, e: Event)
    requires Unshared(rows)
    ensures Unshared(Step(rows, e)) <==> !Reuses(rows, e)
  {
    hide Unshared, WasPrevious, Create, Rotate, Revoke;
    match e
    case Created(keyId, token, expires) =>
      if Create(rows, keyId, Secret(token), expires).Ok? {
        CreateSharesIff(rows, keyId, Secret(token), expires);
      }
    case Rotates(keyId, token, graceUntil) =>
      if Rotate(rows, keyId, Secret(token), graceUntil).Ok? {
        RotateSharesIff(rows, keyId, Secret(token), graceUntil);
      }
    case Revokes(keyId) =>
      RevokeSharesNothing(rows, keyId);
  }

  ghost predicate UnsharedUpTo(es: seq<Event>, n: nat)
    requires n <= |es|
  {
    forall m :: 0 <= m <= n ==> Unshared(Run(es[..m]))
  }

  ghost predicate UnreusedUpTo(es: seq<Event>, n: nat)
    requires n <= |es|
  {
    forall m :: 0 <= m < n ==> !Reuses(Run(es[..m]), es[m])
  }

  /** So at every moment of a run each secret led to one row at most, if and only if no
      accepted event put in force the previous secret of another row. */
  lemma {:induction false} NeverSharedIffNeverReused(es: seq<Event>, n: nat)
    requires n <= |es|
    ensures UnsharedUpTo(es, n) <==> UnreusedUpTo(es, n)
  {
    hide Step, Unshared, Reuses;
    if n == 0 {
      NothingShared();
      assert es[..0] == [];
    } else {
      NeverSharedIffNeverReused(es, n - 1);
      assert es[..n][..n - 1] == es[..n - 1];
      assert Run(es[..n]) == Step(Run(es[..n - 1]), es[n - 1]);
      hide Run;
      if UnsharedUpTo(es, n - 1) {
        SharedIffReused(Run(es[..n - 1]), es[n - 1]);
      }
    }
  }

  lemma NothingShared()
    ensures Unshared(Run([]))
  {
  }

  // ---- The store ----  // ---- The store ----

  class VirtualKeyStore {
    const enabled: bool
    var rows: seq<Row>

    constructor (enabled: bool)
      ensures this.enabled == enabled && rows == []
    {
      this.enabled := enabled;
      rows := [];
    }

    method CreateKey(keyId: string, token: string, expires: Option<int>) returns (r: Result<string>)
      modifies this
      ensures !enabled ==> r == Err(Disabled) && rows == old(rows)
      ensures enabled ==> rows == Step(old(rows), Created(keyId, token, expires))
      ensures enabled ==> match Create(old(rows), keyId, Secret(token), expires)
        case Ok(_) => r == Ok(Secret(token))
        case Err(error) => r == Err(error)
    {
      if !enabled {
        return Err(Disabled);
      }
      var plaintext := "dk_" + token;
      var taken := false;
      for i := 0 to |rows|
        invariant taken <==> exists j :: 0 <= j < i && (rows[j].keyId == keyId || rows[j].hash == Sha256(plaintext))
      {
        if rows[i].keyId == keyId || rows[i].hash == Sha256(plaintext) {
          taken := true;
        }
      }
      if taken {
        return Err(IntegrityError);
      }
      rows := rows + [Row(keyId, Sha256(plaintext), None, expires, None, false)];
      r := Ok(plaintext);
    }

    method RotateKey(keyId: string, token: string, graceUntil: int) returns (r: Result<string>)
      modifies this
      ensures !enabled ==> r == Err(Disabled) && rows == old(rows)
      ensures enabled ==> rows == Step(old(rows), Rotates(keyId, token, graceUntil))
      ensures enabled ==> match Rotate(old(rows), keyId, Secret(token), graceUntil)
        case Ok(_) => r == Ok(Secret(token))
        case Err(error) => r == Err(error)
    {
      if !enabled {
        return Err(Disabled);
      }
      var plaintext := "dk_" + token;
      var i := Find(rows, keyId);
      if i == |rows| || rows[i].revoked {
        return Err(KeyError);
      }
      if HasHash(rows, Sha256(plaintext)) && rows[i].hash != Sha256(plaintext) {
        return Err(IntegrityError);
      }
      var row := rows[i];
      row := row.(hash := Sha256(plaintext), previous := Some(row.hash), previousExpires := Some(graceUntil));
      rows := rows[i := row];
      r := Ok(plaintext);
    }

    method RevokeKey(keyId: string) returns (changed: bool)
      modifies this
      ensures !enabled ==> !changed && rows == old(rows)
      ensures enabled ==> (rows, changed) == Revoke(old(rows), keyId)
    {
      if !enabled {
        return false;
      }
      var i := Find(rows, keyId);
      changed := i < |rows| && !rows[i].revoked;
      if changed {
        rows := rows[i := rows[i].(revoked := true)];
      }
    }

    method ResolveSecret(plaintext: string) returns (key: Option<Identity>)
      ensures key == if enabled then Resolve(rows, plaintext) else None
    {
      if !enabled || plaintext == "" {
        return None;
      }
      var digest := Sha256(plaintext);
      var i := 0;
      while i < |rows| && !Carries(rows[i], digest)
        invariant 0 <= i <= |rows|
        invariant forall j :: 0 <= j < i ==> !Carries(rows[j], digest)
      {
        i := i + 1;
      }
      if i == |rows| || rows[i].revoked {
        return None;
      }
      var row := rows[i];
      var expires := row.expires;
      if row.previous == Some(digest) {
        expires := row.previousExpires;
      }
      key := Some(Identity(row.keyId, expires, if digest == row.hash then row.previousExpires else None));
    }
  }
}
