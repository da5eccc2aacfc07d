/** The use-case layer (usecase/usecase.go): a thin adapter over the repository
    whose only decision is to collapse every unsuccessful `Auth` answer into one
    fixed error. */
module Usecase {
  import opened Wrappers
  import opened Entities
  import opened Errors
  import opened Database
  import Repository

  /** The verdict on the repository's `(matched, err)` answer: success only for
      `(true, nil)`; otherwise "passwords does not match", dropping the
      repository's own error. */
  function AuthVerdict(reply: Repository.AuthReply): (r: Option<Error>)
    ensures r.None? <==> reply.matched && reply.err.None?
    ensures r.Some? ==> r.value == PasswordsDoNotMatch
  {
    if !reply.matched || reply.err.Some? then Some(PasswordsDoNotMatch) else None
  }

  /** `Usecase.Auth` over the repository's `Auth`. */
  function Auth(s: Store, faults: Faults, username: string, password: string): (r: Repository.Effect<Option<Error>>)
    ensures r.store == Repository.Auth(s, faults, username, password).store
    ensures r.out.None? <==> Repository.Auth(s, faults, username, password).out == Repository.AuthReply(true, None)
    ensures r.out.Some? ==> r.out.value == PasswordsDoNotMatch
  {
    var e := Repository.Auth(s, faults, username, password);
    Repository.Effect(e.store, AuthVerdict(e.out))
  }

  /** `Usecase.GetInfo`: the repository's answer, unchanged. */
  function GetInfo(s: Store, faults: Faults, username: string): (r: Result<InfoResponse, Error>)
    ensures r == Repository.GetInfo(s, faults, username)
  {
    Repository.GetInfo(s, faults, username)
  }

  /** `Usecase.BuyItem`: the repository's answer and store, unchanged. */
  function BuyItem(s: Store, faults: Faults, username: string, item: string): (r: Repository.Effect<Option<Error>>)
    ensures r == Repository.BuyItem(s, faults, username, item)
  {
    Repository.BuyItem(s, faults, username, item)
  }

  /** `Usecase.SendCoin`: the repository's answer and store, unchanged. */
  function SendCoin(s: Store, faults: Faults, sender: string, recipient: string, amount: int): (r: Repository.Effect<Option<Error>>)
    ensures r == Repository.SendCoin(s, faults, sender, recipient, amount)
  {
    Repository.SendCoin(s, faults, sender, recipient, amount)
  }

  /** Every unsuccessful repository answer, including (false, nil) and any
      (_, err), becomes the same single error. */
  lemma AuthFailuresAreIndistinguishable(r1: Repository.AuthReply, r2: Repository.AuthReply)
    requires AuthVerdict(r1).Some? && AuthVerdict(r2).Some?
    ensures AuthVerdict(r1) == AuthVerdict(r2) == Some(PasswordsDoNotMatch)
  {
  }

  /** Login-or-register end to end: the first `Auth` of an unseen username
      registers it and succeeds; afterwards the same password succeeds again
      and any other password fails, without changing the store. */
  lemma FirstAuthRegisters(s: Store, username: string, password: string, other: string)
    requires username !in s.users
    requires other != password
    ensures var first := Auth(s, {}, username, password);
      && first.out.None?
      && username in first.store.users
      && first.store.users[username] == User(s.newUserBalance, password)
      && Auth(first.store, {}, username, password) == Repository.Effect(first.store, None)
      && Auth(first.store, {}, username, other) == Repository.Effect(first.store, Some(PasswordsDoNotMatch))
  {
  }
}
