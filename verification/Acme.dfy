/** Obtaining a certificate by the ACME protocol of RFC 8555 (internal/acme/manager.go,
    http01.go, storage.go), with the http-01 or the dns-01 challenge.

    Every effect on the account key, the served tokens, the CA's accounts and the stored
    certificate is noted in a log. `Replay` gives the state a log leads to and `Safe` says
    that each event was allowed when it happened; the manager keeps its log safe whatever
    the outside world answers and wherever a call fails.
 */
module Acme {
  import opened Wrappers

  /** An account key and the thumbprint the key authorization is made of. */
  datatype Key = Key(id: nat, thumbprint: string)

  /** An issued certificate: what identifies the key it certifies. */
  datatype Certificate = Certificate(serial: nat, forKey: nat)

  datatype Challenge = Challenge(kind: string, token: string)

  datatype Authorization = Authorization(valid: bool, challenges: seq<Challenge>)

  datatype Config = Config(domains: seq<string>, caURL: string, challenge: string, agreeToTOS: bool)

  const CHALLENGE_PATH_PREFIX := "/.well-known/acme-challenge/"

  /** The key authorization of section 8.1 of RFC 8555. */
  function KeyAuthorization(key: Key, token: string): string { token + "." + key.thumbprint }

  /** The first challenge of a kind has this token. */
  ghost predicate FirstOfKind(challenges: seq<Challenge>, kind: string, token: string) {
    exists i :: 0 <= i < |challenges| && challenges[i] == Challenge(kind, token) &&
                forall j :: 0 <= j < i ==> challenges[j].kind != kind
  }

  /** The first challenge of the wanted kind. */
  function PickChallenge(challenges: seq<Challenge>, kind: string): (c: Option<Challenge>)
    ensures c.Some? ==> c.value.kind == kind && FirstOfKind(challenges, kind, c.value.token)
    ensures c.None? ==> forall ch :: ch in challenges ==> ch.kind != kind
  {
    if challenges == [] then None
    else if challenges[0].kind == kind then Some(challenges[0])
    else PickChallenge(challenges[1..], kind)
  }

  // ---------------------------------------------------------------------------
  // The log and what it means
  // ---------------------------------------------------------------------------

  datatype Event =
    | Registered(ca: string, key: Key)
    | KeyStored(key: Key)
    | OrderPlaced(ca: string, key: Key)
    | AuthorizationRead(url: string, authz: Authorization)
    | AlreadyValid(url: string)
    | Presented(token: string, keyAuth: string)
    | Accepted(key: Key, token: string)
    | Settled(key: Key, token: string, url: string, valid: bool)
    | SettledByRecord(key: Key, token: string, url: string, valid: bool)
    | CleanedUp(token: string)
    | Finalized(urls: seq<string>)
    | CertStored(cert: Certificate)
    | CertKeyStored(certKey: nat)
    | Restarted

  /** `accounts` are the keys each CA has accepted, `served` what the challenge handler
      answers, `orders` how many orders were placed and `strays` how many of them with a key
      that CA had not accepted, `orderKey` the key of the current order, `validated` its
      authorizations known to be valid and `read` the one read last. */
  datatype State = State(
    accounts: set<(string, Key)>, accountKey: Option<Key>, served: map<string, string>,
    orders: nat, strays: nat, orderKey: Option<Key>, validated: set<string>, read: Option<(string, Authorization)>,
    cert: Option<Certificate>, certKey: Option<nat>)

  const START := State({}, None, map[], 0, 0, None, {}, None, None, None)

  function Apply(s: State, e: Event): State {
    match e
    case Registered(ca, key) => s.(accounts := s.accounts + {(ca, key)})
    case KeyStored(key) => s.(accountKey := Some(key))
    case OrderPlaced(ca, key) =>
      s.(orders := s.orders + 1, strays := s.strays + (if (ca, key) in s.accounts then 0 else 1),
         orderKey := Some(key), validated := {}, read := None)
    case AuthorizationRead(url, authz) => s.(read := Some((url, authz)))
    case AlreadyValid(url) => s.(validated := s.validated + {url})
    case Presented(token, keyAuth) => s.(served := s.served[token := keyAuth])
    case Accepted(_, _) => s
    case Settled(_, _, url, valid) => if valid then s.(validated := s.validated + {url}) else s
    case SettledByRecord(_, _, url, valid) => if valid then s.(validated := s.validated + {url}) else s
    case CleanedUp(token) => s.(served := s.served - {token})
    case Finalized(_) => s
    case CertStored(cert) => s.(cert := Some(cert))
    case CertKeyStored(certKey) => s.(certKey := Some(certKey))
    case Restarted => s.(served := map[], orderKey := None, read := None)
  }

  predicate Serves(s: State, key: Key, token: string) {
    token in s.served && s.served[token] == KeyAuthorization(key, token)
  }

  /** The authorization read last is not valid yet, and this is the token of its first
      challenge of the kind. */
  ghost predicate IsDue(s: State, kind: string, token: string) {
    s.read.Some? && !s.read.value.1.valid && FirstOfKind(s.read.value.1.challenges, kind, token)
  }

  /** The order is placed with `key`, and the challenge with this token is the one to meet for
      the authorization at `url`. */
  ghost predicate IsNext(s: State, key: Key, url: string, kind: string, token: string) {
    s.orderKey == Some(key) && IsDue(s, kind, token) && s.read.value.0 == url
  }

  /** What must hold when an event happens: a key is stored only if a CA accepted it; an
      authorization is passed over only when it was read as valid; a token is presented only
      when it is due; a challenge is accepted, and its authorization waited for, only with the
      order's key and while its token is due and served; an order is finalized only when all its authorizations are valid; a private key
      is stored only for the certificate stored before it. */
  ghost predicate Allowed(s: State, e: Event) {
    match e
    case KeyStored(key) => exists ca :: (ca, key) in s.accounts
    case AlreadyValid(url) => s.read.Some? && s.read.value.0 == url && s.read.value.1.valid
    case Presented(token, _) => IsDue(s, "http-01", token)
    case Accepted(key, token) => s.orderKey == Some(key) && IsDue(s, "http-01", token) && Serves(s, key, token)
    case Settled(key, token, url, _) => IsNext(s, key, url, "http-01", token) && Serves(s, key, token)
    case SettledByRecord(key, token, url, _) => IsNext(s, key, url, "dns-01", token)
    case Finalized(urls) => forall url :: url in urls ==> url in s.validated
    case CertKeyStored(certKey) => s.cert.Some? && s.cert.value.forKey == certKey
    case _ => true
  }

  function Replay(log: seq<Event>): State {
    if log == [] then START else Apply(Replay(log[..|log| - 1]), log[|log| - 1])
  }

  ghost predicate Safe(log: seq<Event>) {
    log == [] || (Safe(log[..|log| - 1]) && Allowed(Replay(log[..|log| - 1]), log[|log| - 1]))
  }

  lemma Append(log: seq<Event>, e: Event)
    ensures Replay(log + [e]) == Apply(Replay(log), e)
    ensures Safe(log + [e]) <==> Safe(log) && Allowed(Replay(log), e)
  {
  }

  // ---------------------------------------------------------------------------
  // Storage, CA and solver
  // ---------------------------------------------------------------------------

  datatype LoadedKey = Loaded(key: Key) | NotStored | LoadFailed

  /** Account key, certificate and private key in the config store. A write that reports an
      error may have happened or not. */
  class Storage {
    var accountKey: Option<Key>
    var cert: Option<Certificate>
    var certKey: Option<nat>

    constructor ()
      ensures accountKey.None? && cert.None? && certKey.None?
    {
      accountKey, cert, certKey := None, None, None;
    }

    method AccountKey() returns (r: LoadedKey)
      ensures r.Loaded? ==> accountKey == Some(r.key)
      ensures r.NotStored? ==> accountKey.None?
    {
      var readable: bool := *;
      if !readable {
        return LoadFailed;
      }
      r := if accountKey.None? then NotStored else Loaded(accountKey.value);
    }

    method SetAccountKey(key: Key) returns (ok: bool, written: bool)
      modifies this`accountKey
      ensures accountKey == if written then Some(key) else old(accountKey)
      ensures ok ==> written
    {
      ok, written := *, *;
      if ok || written {
        written := true;
        accountKey := Some(key);
      }
    }

    /** The certificate first, then its key. */
    method SetCertificate(newCert: Certificate, newKey: nat) returns (ok: bool, certWritten: bool, keyWritten: bool)
      modifies this`cert, this`certKey
      ensures cert == if certWritten then Some(newCert) else old(cert)
      ensures certKey == if keyWritten then Some(newKey) else old(certKey)
      ensures (ok ==> keyWritten) && (keyWritten ==> certWritten)
    {
      ok, certWritten, keyWritten := false, *, false;
      if certWritten {
        cert := Some(newCert);
      }
      var certOK: bool := *;
      if !certOK || !certWritten {
        return;
      }
      keyWritten := *;
      if keyWritten {
        certKey := Some(newKey);
        ok := *;
      }
    }

    /** Both parts or nothing. */
    method Certificate() returns (r: Option<(Certificate, nat)>)
      ensures r.Some? <==> cert.Some? && certKey.Some?
      ensures r.Some? ==> r.value == (cert.value, certKey.value)
    {
      r := if cert.Some? && certKey.Some? then Some((cert.value, certKey.value)) else None;
    }
  }

  datatype RegisterAnswer = Created | AlreadyExists | Refused

  /** The CAs' accounts. A registration whose answer is lost may still have been made. */
  class CertificateAuthorities {
    var accounts: set<(string, Key)>

    constructor ()
      ensures accounts == {}
    {
      accounts := {};
    }

    method Register(ca: string, key: Key) returns (r: RegisterAnswer, made: bool)
      modifies this
      ensures accounts == if made then old(accounts) + {(ca, key)} else old(accounts)
      ensures !r.Refused? ==> (ca, key) in accounts
    {
      r, made := Refused, false;
      var answered: bool := *;
      if (ca, key) in accounts {
        r := if answered then AlreadyExists else Refused;
        return;
      }
      made := *;
      if made {
        accounts := accounts + {(ca, key)};
        r := if answered then Created else Refused;
      }
    }
  }

  /** What the challenge handler answers to a request. */
  function Response(tokens: map<string, string>, path: string): Option<string> {
    var n := |CHALLENGE_PATH_PREFIX|;
    if CHALLENGE_PATH_PREFIX <= path && path[n..] in tokens then Some(tokens[path[n..]]) else None
  }

  class HTTP01Solver {
    /** Token to key authorization. */
    var tokens: map<string, string>

    constructor ()
      ensures tokens == map[]
    {
      tokens := map[];
    }

    method Present(token: string, keyAuth: string)
      modifies this
      ensures tokens == old(tokens)[token := keyAuth]
    {
      tokens := tokens[token := keyAuth];
    }

    method CleanUp(token: string)
      modifies this
      ensures tokens == old(tokens) - {token}
    {
      tokens := tokens - {token};
    }

    method Handle(path: string) returns (body: Option<string>)
      ensures body == Response(tokens, path)
    {
      if !(CHALLENGE_PATH_PREFIX <= path) {
        return None;
      }
      var token := path[|CHALLENGE_PATH_PREFIX|..];
      body := if token in tokens then Some(tokens[token]) else None;
    }
  }

  // ---------------------------------------------------------------------------
  // The manager
  // ---------------------------------------------------------------------------

  datatype Failure =
    | NoDomains | TOSNotAccepted | LoadAccountKey | GenerateKey | Register | StoreAccountKey
    | AuthorizeOrder | Authorize(url: string) | Finalize | StoreCertificate

  datatype Outcome = Issued(cert: Certificate, certKey: nat) | Failed(failure: Failure)

  /** The certificate and key stored, if both are, belong together. */
  predicate PairMatches(cert: Option<Certificate>, certKey: Option<nat>) {
    cert.Some? && certKey.Some? ==> cert.value.forKey == certKey.value
  }

  /** What storing an issued certificate can leave of the old pair: all of it, only its key,
      or nothing. */
  predicate PairAfter(cert: Option<Certificate>, certKey: Option<nat>, issued: Certificate,
                      oldCert: Option<Certificate>, oldKey: Option<nat>) {
    || (cert == oldCert && certKey == oldKey)
    || (cert == Some(issued) && certKey == oldKey)
    || (cert == Some(issued) && certKey == Some(issued.forKey))
  }

  /** A manager with the http-01 solver, which it uses when so configured. */
  class Manager {
    const storage: Storage
    const solver: HTTP01Solver
    const ca: CertificateAuthorities
    var cfg: Config
    ghost var log: seq<Event>

    /** The log is safe and leads to the state there is. */
    ghost predicate Valid()
      reads this, storage, solver, ca
    {
      && Safe(log)
      && Replay(log).accounts == ca.accounts && Replay(log).accountKey == storage.accountKey
      && Replay(log).served == solver.tokens
      && Replay(log).cert == storage.cert && Replay(log).certKey == storage.certKey
    }

    /** The stored key, if any, is one the configured CA has accepted. */
    ghost predicate KeyFits()
      reads this, storage, ca
    {
      storage.accountKey.Some? ==> (cfg.caURL, storage.accountKey.value) in ca.accounts
    }

    constructor (cfg: Config)
      ensures Valid() && log == [] && this.cfg == cfg && solver.tokens == map[]
      ensures fresh(storage) && fresh(solver) && fresh(ca)
    {
      this.cfg := cfg;
      storage := new Storage();
      solver := new HTTP01Solver();
      ca := new CertificateAuthorities();
      log := [];
    }

    ghost method Note(e: Event)
      requires Allowed(Replay(log), e)
      modifies this`log
      ensures log == old(log) + [e] && Replay(log) == Apply(Replay(old(log)), e)
      ensures Safe(old(log)) ==> Safe(log)
    {
      Append(log, e);
      log := log + [e];
    }

    /** The process starts again with another configuration, on the same store. */
    method Restart(newCfg: Config)
      requires Valid()
      modifies this, solver
      ensures Valid() && cfg == newCfg && old(log) <= log && solver.tokens == map[]
      ensures Replay(log) == Replay(old(log)).(served := map[], orderKey := None, read := None)
    {
      cfg := newCfg;
      solver.tokens := map[];
      Note(Restarted);
    }

    /** The stored key, or a new one, which is not stored yet. */
    method Account() returns (key: Option<Key>, isNew: bool, failure: Failure)
      requires Valid()
      ensures key.Some? && !isNew ==> storage.accountKey == key
      ensures key.Some? && isNew ==> storage.accountKey.None?
      ensures key.None? ==> failure == LoadAccountKey || failure == GenerateKey
    {
      key, isNew, failure := None, false, LoadAccountKey;
      var loaded := storage.AccountKey();
      if loaded.Loaded? {
        return Some(loaded.key), false, LoadAccountKey;
      } else if loaded.LoadFailed? {
        return;
      }
      var generated: bool := *;
      if !generated {
        return None, false, GenerateKey;
      }
      var newKey: Key := *;
      return Some(newKey), true, GenerateKey;
    }

    /** Accept the terms of service and, when the CA has the account, store its key. */
    method RegisterAccount(key: Key) returns (ok: bool, failure: Failure)
      requires Valid()
      modifies this`log, storage`accountKey, ca
      ensures Valid() && old(log) <= log && SameOrders(Replay(old(log)), Replay(log))
      ensures ok ==> (cfg.caURL, key) in ca.accounts && storage.accountKey == Some(key)
      ensures storage.accountKey == old(storage.accountKey) ||
              (storage.accountKey == Some(key) && (cfg.caURL, key) in ca.accounts)
      ensures old(ca.accounts) <= ca.accounts
      ensures !ok ==> failure == Register || failure == StoreAccountKey
    {
      ok, failure := false, Register;
      var answer, made := ca.Register(cfg.caURL, key);
      if made {
        Note(Registered(cfg.caURL, key));
      }
      if answer.Refused? {
        return;
      }
      ok := StoreKey(key);
      failure := StoreAccountKey;
    }

    method StoreKey(key: Key) returns (ok: bool)
      requires Valid() && (cfg.caURL, key) in ca.accounts
      modifies this`log, storage`accountKey
      ensures Valid() && old(log) <= log && SameOrders(Replay(old(log)), Replay(log))
      ensures storage.accountKey == old(storage.accountKey) || storage.accountKey == Some(key)
      ensures ok ==> storage.accountKey == Some(key)
    {
      assert (cfg.caURL, key) in Replay(log).accounts;
      var written;
      ok, written := storage.SetAccountKey(key);
      if written {
        Note(KeyStored(key));
      }
    }

    method AcceptAndWait(key: Key, url: string, token: string) returns (ok: bool)
      requires Valid() && Serves(Replay(log), key, token) && IsNext(Replay(log), key, url, "http-01", token)
      modifies this`log
      ensures Valid() && old(log) <= log && SameOrders(Replay(old(log)), Replay(log))
      ensures Replay(log).validated == Replay(old(log)).validated + if ok then {url} else {}
    {
      Note(Accepted(key, token));
      var answered: bool := *;
      if !answered {
        return false;
      }
      ok := *;
      Note(Settled(key, token, url, ok));
    }

    /** Present the proof, accept the challenge and wait, and clean up on every way out. */
    method Prove(key: Key, url: string, token: string) returns (ok: bool)
      requires Valid() && solver.tokens == map[] && IsNext(Replay(log), key, url, "http-01", token)
      modifies this`log, solver
      ensures Valid() && old(log) <= log && solver.tokens == map[]
      ensures SameOrders(Replay(old(log)), Replay(log))
      ensures Replay(log).validated == Replay(old(log)).validated + if ok then {url} else {}
    {
      solver.Present(token, KeyAuthorization(key, token));
      Note(Presented(token, KeyAuthorization(key, token)));
      ok := AcceptAndWait(key, url, token);
      solver.CleanUp(token);
      Note(CleanedUp(token));
    }

    /** The same by a DNS record: publishing it can fail, no token is served, and an error in
        cleaning up is only logged. */
    method ProveByRecord(key: Key, url: string, token: string) returns (ok: bool)
      requires Valid() && IsNext(Replay(log), key, url, "dns-01", token)
      modifies this`log
      ensures Valid() && old(log) <= log && SameOrders(Replay(old(log)), Replay(log))
      ensures Replay(log).validated == Replay(old(log)).validated + if ok then {url} else {}
    {
      var presented: bool, answered: bool := *, *;
      if !presented || !answered {
        return false;
      }
      ok := *;
      Note(SettledByRecord(key, token, url, ok));
    }

    /** One authorization: nothing to do when it is already valid, else prove it by the
        configured challenge. */
    method SolveAuthz(key: Key, url: string) returns (ok: bool)
      requires Valid() && solver.tokens == map[] && Replay(log).orderKey == Some(key)
      modifies this`log, solver
      ensures Valid() && old(log) <= log && solver.tokens == map[]
      ensures SameOrders(Replay(old(log)), Replay(log))
      ensures Replay(log).validated == Replay(old(log)).validated + if ok then {url} else {}
    {
      var got: bool := *;
      if !got {
        return false;
      }
      var authz: Authorization := *;
      Note(AuthorizationRead(url, authz));
      if authz.valid {
        Note(AlreadyValid(url));
        return true;
      }
      var chal := PickChallenge(authz.challenges, cfg.challenge);
      var computed: bool := *;
      if chal.None? || !computed {
        return false;
      }
      if cfg.challenge == "http-01" {
        ok := Prove(key, url, chal.value.token);
      } else if cfg.challenge == "dns-01" {
        ok := ProveByRecord(key, url, chal.value.token);
      } else {
        ok := false;
      }
    }

    method SolveAll(key: Key, urls: seq<string>) returns (r: Option<Failure>)
      requires Valid() && solver.tokens == map[] && Replay(log).orderKey == Some(key)
      modifies this`log, solver
      ensures Valid() && old(log) <= log && solver.tokens == map[]
      ensures SameOrders(Replay(old(log)), Replay(log))
      ensures r.None? ==> forall url :: url in urls ==> url in Replay(log).validated
      ensures r.Some? ==> r.value.Authorize?
    {
      for i := 0 to |urls|
        invariant Valid() && old(log) <= log && solver.tokens == map[]
        invariant SameOrders(Replay(old(log)), Replay(log))
        invariant forall url :: url in urls[..i] ==> url in Replay(log).validated
      {
        var ok := SolveAuthz(key, urls[i]);
        if !ok {
          return Some(Authorize(urls[i]));
        }
      }
      return None;
    }

    /** The certificate and then its key; on an error either may be missing. */
    method StoreCertificate(cert: Certificate, certKey: nat) returns (ok: bool)
      requires Valid() && cert.forKey == certKey
      modifies this`log, storage`cert, storage`certKey
      ensures Valid() && old(log) <= log && SameOrders(Replay(old(log)), Replay(log))
      ensures ok ==> storage.cert == Some(cert) && storage.certKey == Some(certKey)
      ensures log in {old(log), old(log) + [CertStored(cert)], old(log) + [CertStored(cert)] + [CertKeyStored(certKey)]}
      ensures PairAfter(storage.cert, storage.certKey, cert, old(storage.cert), old(storage.certKey))
    {
      var certWritten, keyWritten;
      ok, certWritten, keyWritten := storage.SetCertificate(cert, certKey);
      if certWritten {
        Note(CertStored(cert));
      }
      if keyWritten {
        Note(CertKeyStored(certKey));
      }
    }

    /** With every authorization valid: finalize with a new key and store what is issued. */
    method Certify(urls: seq<string>) returns (r: Outcome, ghost issued: Option<Certificate>)
      requires Valid() && forall url :: url in urls ==> url in Replay(log).validated
      modifies this`log, storage`cert, storage`certKey
      ensures Valid() && old(log) <= log && SameOrders(Replay(old(log)), Replay(log))
      ensures r.Issued? ==> r.cert.forKey == r.certKey && storage.cert == Some(r.cert) && storage.certKey == Some(r.certKey)
      ensures issued.Some? <==> r.Issued? || r.failure == Failure.StoreCertificate
      ensures issued.None? ==> storage.cert == old(storage.cert) && storage.certKey == old(storage.certKey)
      ensures issued.Some? ==>
                PairAfter(storage.cert, storage.certKey, issued.value, old(storage.cert), old(storage.certKey))
      ensures r.Failed? ==> !r.failure.NoDomains? && !r.failure.TOSNotAccepted?
    {
      issued := None;
      var generated: bool := *;
      if !generated {
        return Failed(GenerateKey), issued;
      }
      Note(Finalized(urls));
      var certified: bool := *;
      if !certified {
        return Failed(Finalize), issued;
      }
      var certKey: nat, serial: nat := *, *;
      var cert := Certificate(serial, certKey);
      var ok := StoreCertificate(cert, certKey);
      return if ok then Issued(cert, certKey) else Failed(Failure.StoreCertificate), Some(cert);
    }

    /** Authorize every domain, finalize with a new key, store what is issued. */
    method Order(key: Key) returns (r: Outcome, ghost issued: Option<Certificate>)
      requires Valid() && solver.tokens == map[]
      modifies this`log, solver, storage`cert, storage`certKey
      ensures Valid() && old(log) <= log && solver.tokens == map[]
      ensures Replay(log).orders == Replay(old(log)).orders + 1
      ensures Replay(log).strays == Replay(old(log)).strays + if (cfg.caURL, key) in ca.accounts then 0 else 1
      ensures r.Issued? ==> r.cert.forKey == r.certKey && storage.cert == Some(r.cert) && storage.certKey == Some(r.certKey)
      ensures issued.Some? <==> r.Issued? || r.failure == Failure.StoreCertificate
      ensures issued.None? ==> storage.cert == old(storage.cert) && storage.certKey == old(storage.certKey)
      ensures issued.Some? ==>
                PairAfter(storage.cert, storage.certKey, issued.value, old(storage.cert), old(storage.certKey))
      ensures r.Failed? ==> !r.failure.NoDomains? && !r.failure.TOSNotAccepted?
    {
      issued := None;
      Note(OrderPlaced(cfg.caURL, key));
      var granted: bool := *;
      if !granted {
        return Failed(AuthorizeOrder), issued;
      }
      var urls: seq<string> := *;
      var failure := SolveAll(key, urls);
      if failure.Some? {
        return Failed(failure.value), issued;
      }
      r, issued := Certify(urls);
    }

    /** The whole flow. Whatever fails, the log stays safe and no token stays served. An order
        is placed with a key the CA has not accepted exactly when the stored key is of that
        kind: a stored key is used as it is, whichever CA it was registered with. */
    method Obtain() returns (r: Outcome, ghost issued: Option<Certificate>)
      requires Valid() && solver.tokens == map[]
      modifies this`log, solver, storage, ca
      ensures Valid() && old(log) <= log && solver.tokens == map[]
      ensures cfg.domains == [] ==> r == Failed(NoDomains) && log == old(log)
      ensures cfg.domains != [] && !cfg.agreeToTOS ==> r == Failed(TOSNotAccepted) && log == old(log)
      ensures cfg.domains != [] && cfg.agreeToTOS && r.Failed? ==> !r.failure.NoDomains? && !r.failure.TOSNotAccepted?
      ensures Replay(log).orders - Replay(old(log)).orders in {0, 1}
      ensures var stored := old(storage.accountKey);
              Replay(log).strays - Replay(old(log)).strays ==
              if stored.Some? && (cfg.caURL, stored.value) !in old(ca.accounts)
              then Replay(log).orders - Replay(old(log)).orders else 0
      ensures old(storage.accountKey).Some? ==> storage.accountKey == old(storage.accountKey)
      ensures old(KeyFits()) ==> KeyFits()
      ensures r.Issued? ==> r.cert.forKey == r.certKey && storage.cert == Some(r.cert) && storage.certKey == Some(r.certKey)
      ensures issued.Some? <==> r.Issued? || r.failure == Failure.StoreCertificate
      ensures issued.None? ==> storage.cert == old(storage.cert) && storage.certKey == old(storage.certKey)
      ensures issued.Some? ==>
                PairAfter(storage.cert, storage.certKey, issued.value, old(storage.cert), old(storage.certKey))
    {
      issued := None;
      if |cfg.domains| == 0 {
        return Failed(NoDomains), issued;
      }
      if !cfg.agreeToTOS {
        return Failed(TOSNotAccepted), issued;
      }
      var key, isNew, failure := Account();
      if key.None? {
        return Failed(failure), issued;
      }
      if isNew {
        var ok, why := RegisterAccount(key.value);
        if !ok {
          return Failed(why), issued;
        }
      }
      r, issued := Order(key.value);
    }

    /** Any number of calls, with restarts under other configurations in between: the state
        stays what the log says, the log stays safe, and nothing is served between calls. As
        long as the CA stays the same every order is placed with a key it has accepted. */
    method ObtainRepeatedly(runs: seq<(nat, Config)>)
      requires Valid() && solver.tokens == map[]
      modifies this, solver, storage, ca
      ensures Valid() && old(log) <= log && solver.tokens == map[]
      ensures old(KeyFits()) && (forall run :: run in runs ==> run.1.caURL == old(cfg.caURL)) ==>
                KeyFits() && Replay(log).strays == Replay(old(log)).strays
    {
      for i := 0 to |runs|
        invariant Valid() && old(log) <= log && solver.tokens == map[]
        invariant old(KeyFits()) && (forall run :: run in runs ==> run.1.caURL == old(cfg.caURL)) ==>
                    cfg.caURL == old(cfg.caURL) && KeyFits() && Replay(log).strays == Replay(old(log)).strays
      {
        for _ := 0 to runs[i].0
          invariant Valid() && old(log) <= log && solver.tokens == map[]
          invariant old(KeyFits()) && (forall run :: run in runs ==> run.1.caURL == old(cfg.caURL)) ==>
                      cfg.caURL == old(cfg.caURL) && KeyFits() && Replay(log).strays == Replay(old(log)).strays
        {
          var outcome, _ := Obtain();
        }
        Restart(runs[i].1);
      }
    }
  }

  ghost predicate SameOrders(a: State, b: State) {
    a.orders == b.orders && a.strays == b.strays && a.orderKey == b.orderKey
  }

  // ---------------------------------------------------------------------------
  // What a safe log guarantees
  // ---------------------------------------------------------------------------

  /** A process that dies in the middle of a call leaves a safe log, with nothing served once
      it is back. */
  lemma {:induction false} SafeAtEveryMoment(log: seq<Event>, i: nat)
    requires Safe(log) && i <= |log|
    ensures Safe(log[..i]) && Safe(log[..i] + [Restarted]) && Replay(log[..i] + [Restarted]).served == map[]
  {
    if i == |log| {
      assert log[..i] == log;
      Append(log, Restarted);
    } else {
      SafeAtEveryMoment(log[..|log| - 1], i);
      assert log[..|log| - 1][..i] == log[..i];
    }
  }

  lemma EventAllowed(log: seq<Event>, i: nat)
    requires Safe(log) && i < |log|
    ensures Allowed(Replay(log[..i]), log[i])
  {
    SafeAtEveryMoment(log, i + 1);
    assert log[..i + 1][..i] == log[..i];
  }

  /** The stored account key is one that some CA has accepted. */
  lemma {:induction false} StoredKeyWasAccepted(log: seq<Event>)
    requires Safe(log) && Replay(log).accountKey.Some?
    ensures exists ca :: (ca, Replay(log).accountKey.value) in Replay(log).accounts
  {
    var n := |log| - 1;
    if !log[n].KeyStored? {
      StoredKeyWasAccepted(log[..n]);
      var ca :| (ca, Replay(log[..n]).accountKey.value) in Replay(log[..n]).accounts;
      assert (ca, Replay(log).accountKey.value) in Replay(log).accounts;
    }
  }

  /** When a challenge is accepted, a request for its token is answered by its key
      authorization (section 8.3 of RFC 8555). */
  lemma AcceptedIsServed(log: seq<Event>, i: nat)
    requires Safe(log) && i < |log| && (log[i].Accepted? || log[i].Settled?)
    ensures Response(Replay(log[..i]).served, CHALLENGE_PATH_PREFIX + log[i].token) ==
            Some(KeyAuthorization(log[i].key, log[i].token))
  {
    EventAllowed(log, i);
    var path := CHALLENGE_PATH_PREFIX + log[i].token;
    assert path[|CHALLENGE_PATH_PREFIX|..] == log[i].token;
  }

  predicate Drops(e: Event, token: string) { e.Restarted? || (e.CleanedUp? && e.token == token) }

  /** Presented at `j`, and neither dropped nor presented again from there to the end. */
  ghost predicate ServedSince(log: seq<Event>, j: nat, token: string, keyAuth: string) {
    j < |log| && log[j] == Presented(token, keyAuth) &&
    forall m :: j < m < |log| ==> !Drops(log[m], token) && !(log[m].Presented? && log[m].token == token)
  }

  lemma {:induction false} ServedWasPresented(log: seq<Event>, token: string) returns (j: nat)
    requires token in Replay(log).served
    ensures ServedSince(log, j, token, Replay(log).served[token])
  {
    var n := |log| - 1;
    if log[n].Presented? && log[n].token == token {
      j := n;
    } else {
      j := ServedWasPresented(log[..n], token);
    }
  }

  lemma {:induction false} NoLongerServedWasDropped(log: seq<Event>, i: nat, token: string) returns (m: nat)
    requires i <= |log| && token in Replay(log[..i]).served && token !in Replay(log).served
    ensures i <= m < |log| && Drops(log[m], token)
  {
    var n := |log| - 1;
    assert log[..|log|] == log;
    if token in Replay(log[..n]).served {
      m := n;
    } else {
      assert log[..n][..i] == log[..i];
      m := NoLongerServedWasDropped(log[..n], i, token);
    }
  }

  /** The bracket: once nothing is served, every challenge that was accepted had been
      presented before, with its key authorization and with nothing to take it down in
      between, and was taken down after. */
  lemma AcceptedIsBracketed(log: seq<Event>, i: nat)
    requires Safe(log) && i < |log| && log[i].Accepted? && log[i].token !in Replay(log).served
    ensures exists j: nat, m: nat :: j < i < m < |log| &&
              ServedSince(log[..i], j, log[i].token, KeyAuthorization(log[i].key, log[i].token)) &&
              Drops(log[m], log[i].token)
  {
    EventAllowed(log, i);
    var j := ServedWasPresented(log[..i], log[i].token);
    var m := NoLongerServedWasDropped(log, i, log[i].token);
    assert ServedSince(log[..i], j, log[i].token, KeyAuthorization(log[i].key, log[i].token));
    assert m != i;
  }

  predicate Forgets(e: Event) { e.AuthorizationRead? || e.OrderPlaced? || e.Restarted? }

  /** Authorization `url` was read at `j` as `authz`, for the order placed last, and no other
      since. */
  ghost predicate LastRead(log: seq<Event>, j: nat, url: string, authz: Authorization) {
    j < |log| && log[j] == AuthorizationRead(url, authz) && forall m :: j < m < |log| ==> !Forgets(log[m])
  }

  lemma {:induction false} ReadWasNoted(log: seq<Event>) returns (j: nat)
    requires Replay(log).read.Some?
    ensures LastRead(log, j, Replay(log).read.value.0, Replay(log).read.value.1)
  {
    var n := |log| - 1;
    if log[n].AuthorizationRead? {
      j := n;
    } else {
      j := ReadWasNoted(log[..n]);
    }
  }

  predicate Places(e: Event, key: Key) { e.OrderPlaced? && e.key == key }

  /** An order was placed with `key` at `j`, and no other since, nor a restart. */
  ghost predicate OrderedWith(log: seq<Event>, j: nat, key: Key) {
    j < |log| && Places(log[j], key) && forall m :: j < m < |log| ==> !log[m].OrderPlaced? && !log[m].Restarted?
  }

  lemma {:induction false} OrderWasPlaced(log: seq<Event>) returns (j: nat)
    requires Replay(log).orderKey.Some?
    ensures OrderedWith(log, j, Replay(log).orderKey.value)
  {
    var n := |log| - 1;
    if log[n].OrderPlaced? {
      j := n;
    } else {
      j := OrderWasPlaced(log[..n]);
    }
  }

  /** The kind of challenge an event belongs to. */
  function KindOf(e: Event): string { if e.SettledByRecord? then "dns-01" else "http-01" }

  /** Every token that is presented, accepted or waited for is that of the first challenge of
      its kind in the authorization read just before, which was not valid yet; what is waited
      for is that authorization. */
  lemma ProofIsForTheAuthorization(log: seq<Event>, i: nat)
    requires Safe(log) && i < |log| && (log[i].Presented? || log[i].Accepted? || log[i].Settled? || log[i].SettledByRecord?)
    ensures exists j: nat, url, authz :: LastRead(log[..i], j, url, authz) && !authz.valid
              && FirstOfKind(authz.challenges, KindOf(log[i]), log[i].token)
              && (log[i].Settled? || log[i].SettledByRecord? ==> log[i].url == url)
  {
    EventAllowed(log, i);
    var j := ReadWasNoted(log[..i]);
  }

  /** An authorization is passed over without a proof only when it was just read as valid. */
  lemma PassedOverIsValid(log: seq<Event>, i: nat)
    requires Safe(log) && i < |log| && log[i].AlreadyValid?
    ensures exists j: nat, authz :: LastRead(log[..i], j, log[i].url, authz) && authz.valid
  {
    EventAllowed(log, i);
    var j := ReadWasNoted(log[..i]);
  }

  /** Challenges are accepted with the key their order was placed with. */
  lemma AcceptedWithOrderKey(log: seq<Event>, i: nat)
    requires Safe(log) && i < |log| && (log[i].Accepted? || log[i].Settled? || log[i].SettledByRecord?)
    ensures exists j: nat :: OrderedWith(log[..i], j, log[i].key)
  {
    EventAllowed(log, i);
    var j := OrderWasPlaced(log[..i]);
  }

  predicate Validates(e: Event, url: string) {
    e == AlreadyValid(url) || ((e.Settled? || e.SettledByRecord?) && e.url == url && e.valid)
  }

  /** Authorization `url` was found or became valid at `j`, and no order was placed since. */
  ghost predicate ValidatedSince(log: seq<Event>, j: nat, url: string) {
    j < |log| && Validates(log[j], url) &&
    forall m :: j < m < |log| ==> !log[m].OrderPlaced?
  }

  lemma {:induction false} ValidatedInThisOrder(log: seq<Event>, url: string) returns (j: nat)
    requires url in Replay(log).validated
    ensures ValidatedSince(log, j, url)
  {
    var n := |log| - 1;
    if url in Replay(log[..n]).validated && !log[n].OrderPlaced? {
      j := ValidatedInThisOrder(log[..n], url);
    } else {
      j := n;
    }
  }

  /** An order is finalized only after each of its authorizations became valid in it. */
  lemma FinalizedIsValidated(log: seq<Event>, i: nat, url: string)
    requires Safe(log) && i < |log| && log[i].Finalized? && url in log[i].urls
    ensures exists j: nat :: ValidatedSince(log[..i], j, url)
  {
    EventAllowed(log, i);
    var j := ValidatedInThisOrder(log[..i], url);
  }

  predicate PairEvent(e: Event) { e.CertStored? || e.CertKeyStored? }

  lemma {:induction false} PairUnchangedSince(log: seq<Event>, i: nat)
    requires i <= |log| && forall m :: i <= m < |log| ==> !PairEvent(log[m])
    ensures Replay(log).cert == Replay(log[..i]).cert && Replay(log).certKey == Replay(log[..i]).certKey
  {
    if i == |log| {
      assert log[..i] == log;
    } else {
      PairUnchangedSince(log[..|log| - 1], i);
      assert log[..|log| - 1][..i] == log[..i];
    }
  }

  /** The stored pair matches exactly when the last of its writes was that of a key, or that
      of a certificate for the key already there. */
  lemma PairMatchesIff(log: seq<Event>, i: nat)
    requires Safe(log) && Replay(log).cert.Some? && Replay(log).certKey.Some?
    requires i < |log| && PairEvent(log[i]) && forall m :: i < m < |log| ==> !PairEvent(log[m])
    ensures PairMatches(Replay(log).cert, Replay(log).certKey) <==>
            log[i].CertKeyStored? || Some(log[i].cert.forKey) == Replay(log[..i]).certKey
  {
    PairUnchangedSince(log, i + 1);
    ReplayAt(log, i);
    EventAllowed(log, i);
  }

  lemma ReplayAt(log: seq<Event>, i: nat)
    requires i < |log|
    ensures Replay(log[..i + 1]) == Apply(Replay(log[..i]), log[i])
  {
    assert log[..i + 1] == log[..i] + [log[i]];
    Append(log[..i], log[i]);
  }

  /** A renewal that stores its certificate and then fails leaves a full pair, and it does not
      match unless the new certificate is for the old key. */
  lemma HalfRenewal(log: seq<Event>, issued: Certificate)
    requires Safe(log) && Replay(log).certKey.Some?
    ensures var after := log + [CertStored(issued)];
            && Safe(after) && Replay(after).cert == Some(issued) && Replay(after).certKey == Replay(log).certKey
            && (PairMatches(Replay(after).cert, Replay(after).certKey) <==> Some(issued.forKey) == Replay(log).certKey)
  {
    var after := log + [CertStored(issued)];
    Append(log, CertStored(issued));
    assert after[..|log|] == log;
    PairMatchesIff(after, |log|);
  }

  /** So storing over a full matching pair breaks it exactly when only the certificate was
      written and it is for another key. */
  lemma BrokenPairIff(cert: Option<Certificate>, certKey: Option<nat>, issued: Certificate,
                      oldCert: Option<Certificate>, oldKey: Option<nat>)
    requires PairAfter(cert, certKey, issued, oldCert, oldKey)
    requires oldCert.Some? && oldKey.Some? && PairMatches(oldCert, oldKey)
    ensures !PairMatches(cert, certKey) <==>
            cert == Some(issued) && certKey == oldKey && oldKey != Some(issued.forKey)
  {
  }
}
