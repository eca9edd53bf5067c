/** The account registry kept by `ConfigManager` in an INI file: one section
    per username, each a small string-to-string map holding `password` and
    `postflag`. The file is modelled as a map from section name to section;
    reading it normalises records (a missing flag is written back as `true`)
    and turns the flag string into a boolean. */
module Registry {
  import opened Common

  /** One INI section; option names are already lower-cased, as configparser
      stores them. */
  type Section = map<string, string>

  /** The whole accounts file. */
  type Store = map<string, Section>

  /** A normalised record as `get_accounts` returns it. */
  datatype Account = Account(password: string, postFlag: bool)

  const PasswordKey: string := "password"
  const FlagKey: string := "postflag"

  /** A record without a flag gets the default `'true'`; others are kept. */
  function WithDefaultFlag(sect: Section): (r: Section)
    ensures FlagKey in r && r.Keys == sect.Keys + {FlagKey}
    ensures FlagKey in sect ==> r == sect
    ensures FlagKey !in sect ==> r[FlagKey] == "true"
    ensures forall k :: k in sect && k != FlagKey ==> r[k] == sect[k]
  {
    if FlagKey in sect then sect else sect[FlagKey := "true"]
  }

  /** The boolean a stored flag string denotes: `flag.lower() == 'true'`. */
  predicate FlagOn(flag: string)
  {
    Lower(flag) == "true"
  }

  /** The flag is on exactly for the spellings of `true` in any letter case. */
  lemma FlagOnSpellings(flag: string)
    ensures FlagOn(flag) <==> |flag| == 4 && flag[0] in "tT" && flag[1] in "rR"
                                         && flag[2] in "uU" && flag[3] in "eE"
  {
  }

  /** The record `get_accounts` builds from a section that has a password. */
  function ToAccount(sect: Section): (a: Account)
    requires PasswordKey in sect
    ensures a.password == sect[PasswordKey]
    ensures a.postFlag <==> FlagKey !in sect || FlagOn(sect[FlagKey])
  {
    Account(sect[PasswordKey], FlagOn(WithDefaultFlag(sect)[FlagKey]))
  }

  /** The records `get_accounts` collects walking the sections in `order`
      (configparser keeps file order): a section lacking `password` stops the
      walk with a `KeyError`. */
  function ReadRecords(store: Store, order: seq<string>): (r: Outcome<map<string, Account>>)
    requires forall i :: 0 <= i < |order| ==> order[i] in store
    ensures r.Ok? <==> forall i :: 0 <= i < |order| ==> PasswordKey in store[order[i]]
    ensures r.Ok? ==> forall m :: m in r.value <==> m in order
    ensures r.Ok? ==> forall i :: 0 <= i < |order| ==> r.value[order[i]] == ToAccount(store[order[i]])
    decreases |order|
  {
    if order == [] then Ok(map[])
    else
      var n := order[0];
      if PasswordKey !in store[n] then Raised
      else
        var tail := order[1..];
        assert forall i :: 0 <= i < |tail| ==> tail[i] == order[i + 1];
        var rest := ReadRecords(store, tail);
        if rest.Raised? then Raised
        else
          assert forall m :: m in order <==> m == n || m in tail;
          Ok(rest.value[n := ToAccount(store[n])])
  }

  /** The position in `order` of the first section without a password, or
      `|order|` when every section has one: where the walk raises. */
  function FirstMissing(store: Store, order: seq<string>): (k: nat)
    requires forall i :: 0 <= i < |order| ==> order[i] in store
    ensures k <= |order|
    ensures forall i :: 0 <= i < k ==> PasswordKey in store[order[i]]
    ensures k < |order| ==> PasswordKey !in store[order[k]]
    decreases |order|
  {
    if order == [] || PasswordKey !in store[order[0]] then 0
    else
      assert forall i :: 0 <= i < |order| - 1 ==> order[1..][i] == order[i + 1];
      1 + FirstMissing(store, order[1..])
  }

  /** Two files that agree on the walked sections stop the walk at the same
      place. */
  lemma {:induction false} FirstMissingAgree(store: Store, store': Store, order: seq<string>)
    requires forall i :: 0 <= i < |order| ==> order[i] in store && order[i] in store'
    requires forall i :: 0 <= i < |order| ==> store[order[i]] == store'[order[i]]
    ensures FirstMissing(store, order) == FirstMissing(store', order)
    decreases |order|
  {
    if order != [] {
      assert forall i :: 0 <= i < |order| - 1 ==> order[1..][i] == order[i + 1];
      FirstMissingAgree(store, store', order[1..]);
    }
  }

  /** The walked sections of `r` are those of `store`, the first `k` of them
      with the default flag written in. */
  predicate NormalisedUpTo(store: Store, r: Store, order: seq<string>, k: nat)
  {
    forall i :: 0 <= i < |order| ==>
      && order[i] in store && order[i] in r
      && r[order[i]] == (if i < k then WithDefaultFlag(store[order[i]]) else store[order[i]])
  }

  /** How many sections the walk visits: up to and including the one that
      raises. */
  function Visited(store: Store, order: seq<string>): (v: nat)
    requires forall i :: 0 <= i < |order| ==> order[i] in store
    ensures v <= |order|
    ensures v == |order| <==> FirstMissing(store, order) >= |order| - 1
  {
    var k := FirstMissing(store, order);
    if k < |order| then k + 1 else k
  }

  /** The file after the same walk: every visited section without a flag has
      the default written back before its password is read, so the section
      that raises is normalised too, and the ones after it are not visited. */
  function WriteBacks(store: Store, order: seq<string>): (r: Store)
    requires Distinct(order)
    requires forall i :: 0 <= i < |order| ==> order[i] in store
    ensures r.Keys == store.Keys
    ensures forall m :: m in store && m !in order ==> r[m] == store[m]
    ensures NormalisedUpTo(store, r, order, Visited(store, order))
    ensures (forall i :: 0 <= i < |order| ==> PasswordKey in store[order[i]]) ==>
              forall i :: 0 <= i < |order| ==> r[order[i]] == WithDefaultFlag(store[order[i]])
    decreases |order|
  {
    if order == [] then store
    else
      var n := order[0];
      var store1 := store[n := WithDefaultFlag(store[n])];
      if PasswordKey !in store[n] then store1
      else
        var tail := order[1..];
        assert forall i :: 0 <= i < |tail| ==> tail[i] == order[i + 1] && tail[i] != n;
        FirstMissingAgree(store, store1, tail);
        WriteBacks(store1, tail)
  }

  /** One full read: the outcome and the file as it stands afterwards. */
  function ReadSections(store: Store, order: seq<string>): (Outcome<map<string, Account>>, Store)
    requires Distinct(order)
    requires forall i :: 0 <= i < |order| ==> order[i] in store
  {
    (ReadRecords(store, order), WriteBacks(store, order))
  }

  /** `order` lists exactly the sections of the file, each once. */
  ghost predicate Enumerates(order: seq<string>, store: Store)
  {
    Distinct(order) && forall n :: n in order <==> n in store
  }

  /** Walking an enumeration of the file visits every section. */
  lemma ReadAll(store: Store, order: seq<string>)
    requires Enumerates(order, store)
    ensures var (r, store') := ReadSections(store, order);
            && store'.Keys == store.Keys
            && (r.Ok? <==> forall n :: n in store ==> PasswordKey in store[n])
            && (r.Ok? ==> r.value.Keys == store.Keys)
            && (r.Ok? ==> forall n :: n in store ==> r.value[n] == ToAccount(store[n]))
            && (r.Ok? ==> forall n :: n in store ==> store'[n] == WithDefaultFlag(store[n]))
  {
  }

  /** `get_accounts`: every section, normalised, or the `KeyError` of the
      first section without a password. */
  function GetAccounts(store: Store, order: seq<string>): (r: (Outcome<map<string, Account>>, Store))
    requires Enumerates(order, store)
    ensures r.1.Keys == store.Keys
    ensures r.0.Ok? <==> forall n :: n in store ==> PasswordKey in store[n]
    ensures r.0.Ok? ==> r.0.value.Keys == store.Keys
    ensures r.0.Ok? ==> forall n :: n in store ==> r.0.value[n] == ToAccount(store[n])
    ensures r.0.Ok? ==> forall n :: n in store ==> r.1[n] == WithDefaultFlag(store[n])
    ensures r.0.Raised? ==> FirstMissing(store, order) < |order|
                            && NormalisedUpTo(store, r.1, order, FirstMissing(store, order) + 1)
  {
    ReadAll(store, order);
    ReadSections(store, order)
  }

  /** `get_account`: the record of one username, `None` when it has no
      section. */
  function GetAccount(store: Store, order: seq<string>, username: string): (r: (Outcome<Option<Account>>, Store))
    requires Enumerates(order, store)
    ensures r.1 == GetAccounts(store, order).1
    ensures r.0.Ok? <==> GetAccounts(store, order).0.Ok?
    ensures r.0.Ok? ==> (r.0.value.Some? <==> username in store)
    ensures r.0.Ok? && username in store ==> r.0.value.value.password == store[username][PasswordKey]
    ensures r.0.Ok? && username in store ==> r.0.value.value == ToAccount(store[username])
  {
    var (all, store') := GetAccounts(store, order);
    match all
    case Raised => (Raised, store')
    case Ok(accounts) => (Ok(if username in accounts then Some(accounts[username]) else None), store')
  }

  /** A JSON value sent as `postFlag`, as far as `str(v).lower()` sees it. */
  datatype FlagValue = FlagBool(b: bool) | FlagText(text: string)

  /** `str(v).lower()`: Python prints booleans as `True` and `False`. */
  function FlagString(v: FlagValue): (r: string)
    ensures v.FlagBool? ==> (FlagOn(r) <==> v.b)
    ensures v.FlagText? ==> (FlagOn(r) <==> FlagOn(v.text))
  {
    match v
    case FlagBool(b) => if b then "true" else "false"
    case FlagText(t) => Lower(t)
  }

  /** The keys `update_account` looks for in its `data` argument. */
  datatype AccountPatch = AccountPatch(password: Option<string>, postFlag: Option<FlagValue>)

  /** `update_account`: overwrite the password and/or flag present in the
      patch; an unknown username leaves the file alone. */
  function UpdateAccount(store: Store, username: string, patch: AccountPatch): (r: Store)
    ensures username !in store ==> r == store
    ensures r.Keys == store.Keys
    ensures forall n :: n in store && n != username ==> r[n] == store[n]
    ensures username in store ==>
              && r[username].Keys == store[username].Keys
                   + (if patch.password.Some? then {PasswordKey} else {})
                   + (if patch.postFlag.Some? then {FlagKey} else {})
              && (patch.password.Some? ==> r[username][PasswordKey] == patch.password.value)
              && (patch.postFlag.Some? ==> r[username][FlagKey] == FlagString(patch.postFlag.value))
              && (forall k :: k in store[username] && k != PasswordKey && k != FlagKey ==>
                    r[username][k] == store[username][k])
              && (patch.password.None? && PasswordKey in store[username] ==>
                    r[username][PasswordKey] == store[username][PasswordKey])
              && (patch.postFlag.None? && FlagKey in store[username] ==>
                    r[username][FlagKey] == store[username][FlagKey])
  {
    if username !in store then store
    else
      var s0 := store[username];
      var s1 := if patch.password.Some? then s0[PasswordKey := patch.password.value] else s0;
      var s2 := if patch.postFlag.Some? then s1[FlagKey := FlagString(patch.postFlag.value)] else s1;
      store[username := s2]
  }

  /** `delete_account`: drop the named section; an unknown username leaves
      the file alone. */
  function DeleteAccount(store: Store, username: string): (r: Store)
    ensures r.Keys == store.Keys - {username}
    ensures forall n :: n in r ==> r[n] == store[n]
    ensures username !in store ==> r == store
  {
    store - {username}
  }

  /** After `delete_account`, `get_account` reports no record for the name
      (whenever the remaining file reads at all), and every other account
      reads as before. */
  lemma DeleteThenGet(store: Store, order: seq<string>, order': seq<string>, username: string, other: string)
    requires Enumerates(order, store)
    requires Enumerates(order', DeleteAccount(store, username))
    requires other != username
    ensures var r := GetAccount(DeleteAccount(store, username), order', username);
            r.0.Ok? ==> r.0.value == None
    ensures var before := GetAccount(store, order, other);
            var after := GetAccount(DeleteAccount(store, username), order', other);
            before.0.Ok? ==> after.0 == before.0
  {
  }

  /** Setting the flag from a JSON boolean is read back as that boolean, and
      the password is untouched when the patch does not carry one. */
  lemma UpdateFlagThenGet(store: Store, order: seq<string>, username: string, b: bool)
    requires Enumerates(order, store)
    requires username in store
    ensures var store' := UpdateAccount(store, username, AccountPatch(None, Some(FlagBool(b))));
            var r := GetAccount(store', order, username);
            r.0.Ok? ==> r.0.value == Some(Account(store[username][PasswordKey], b))
  {
    assert Lower("true") == "true";
    var f := Lower("false");
    assert f[0] == 'f';
  }

  /** Normalising a section does not change the record read from it. */
  lemma ToAccountNormalised(sect: Section)
    requires PasswordKey in sect
    ensures PasswordKey in WithDefaultFlag(sect)
    ensures ToAccount(WithDefaultFlag(sect)) == ToAccount(sect)
  {
  }

  /** The file after a successful read is its own normal form: every
      section has a password and a flag, and reads as the original did. */
  lemma ReadNormalises(store: Store, order: seq<string>)
    requires Enumerates(order, store)
    requires GetAccounts(store, order).0.Ok?
    ensures var store' := GetAccounts(store, order).1;
            && Enumerates(order, store')
            && (forall n :: n in store' ==> PasswordKey in store'[n] && WithDefaultFlag(store'[n]) == store'[n])
            && (forall n :: n in store' ==> ToAccount(store'[n]) == ToAccount(store[n]))
  {
  }

  /** A second read of the accounts writes nothing more. */
  lemma GetAccountsTwiceFile(store: Store, order: seq<string>)
    requires Enumerates(order, store)
    requires GetAccounts(store, order).0.Ok?
    ensures Enumerates(order, GetAccounts(store, order).1)
    ensures GetAccounts(GetAccounts(store, order).1, order).1 == GetAccounts(store, order).1
  {
    var store' := GetAccounts(store, order).1;
    ReadNormalises(store, order);
    SameStore(store', GetAccounts(store', order).1);
  }

  lemma SameStore(store': Store, store'': Store)
    requires store''.Keys == store'.Keys
    requires forall n :: n in store' ==> store''[n] == WithDefaultFlag(store'[n]) == store'[n]
    ensures store'' == store'
  {
  }

  /** A second read of the accounts returns the same records. */
  lemma GetAccountsTwice(store: Store, order: seq<string>)
    requires Enumerates(order, store)
    requires GetAccounts(store, order).0.Ok?
    ensures Enumerates(order, GetAccounts(store, order).1)
    ensures GetAccounts(GetAccounts(store, order).1, order).0 == GetAccounts(store, order).0
  {
    var first := GetAccounts(store, order);
    ReadNormalises(store, order);
    var second := GetAccounts(first.1, order);
    SameRecords(store, first.1, first.0.value, second.0.value);
  }

  lemma SameRecords(store: Store, store': Store, m1: map<string, Account>, m2: map<string, Account>)
    requires store'.Keys == store.Keys == m1.Keys == m2.Keys
    requires forall n :: n in store ==> PasswordKey in store[n] && m1[n] == ToAccount(store[n])
    requires forall n :: n in store' ==> PasswordKey in store'[n] && m2[n] == ToAccount(store'[n])
    requires forall n :: n in store' ==> ToAccount(store'[n]) == ToAccount(store[n])
    ensures m1 == m2
  {
  }
}
