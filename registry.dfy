/**
  The provider registry of llm_kit: a process-wide table from a provider
  name to the client class that talks to that provider.

  The table is a string-keyed map whose values are client classes. The
  classes themselves are opaque to the registry, so they are the type
  parameter `C` throughout. `register_provider` writes one entry (last write
  wins, no duplicate check, never fails); `get_provider` reads one entry and
  raises `ValueError("Provider '<name>' not registered")` for a missing name.
 */
module Registry {

  /** The outcome of a lookup: the stored client class, or the error. */
  datatype Result<+T, +E> = Success(value: T) | Failure(error: E)

  /** The error `get_provider` raises. The model keeps the offending name;
      `Message()` is the exact text of the raised `ValueError`. */
  datatype LookupError = NotRegistered(name: string)
  {
    function Message(): (msg: string)
      ensures |msg| == |MessagePrefix| + |name| + |MessageSuffix|
      ensures msg[|MessagePrefix|..|MessagePrefix| + |name|] == name
    {
      MessagePrefix + name + MessageSuffix
    }
  }

  const MessagePrefix: string := "Provider '"
  const MessageSuffix: string := "' not registered"

  /** Recovers the provider name from an error message, if the message has
      the shape `get_provider` gives it. */
  function ParseMessage(msg: string): (r: Option<string>)
    ensures r.Some? ==> |msg| == |MessagePrefix| + |r.value| + |MessageSuffix|
  {
    if |msg| >= |MessagePrefix| + |MessageSuffix|
       && msg[..|MessagePrefix|] == MessagePrefix
       && msg[|msg| - |MessageSuffix|..] == MessageSuffix
    then Some(msg[|MessagePrefix|..|msg| - |MessageSuffix|])
    else None
  }

  datatype Option<+T> = None | Some(value: T)

  /** The message names the provider: it can be parsed back to that name. */
  lemma MessageRoundTrip(name: string)
    ensures ParseMessage(NotRegistered(name).Message()) == Some(name)
  {
  }

  /** Two lookups that fail with the same message failed on the same name. */
  lemma MessageIdentifiesName(a: string, b: string)
    requires NotRegistered(a).Message() == NotRegistered(b).Message()
    ensures a == b
  {
  }

  /** `register_provider`: the entry for `name` becomes `client`; every other
      entry is kept as it was. */
  function Register<C>(m: map<string, C>, name: string, client: C): (m': map<string, C>)
    ensures m'.Keys == m.Keys + {name}
    ensures name in m' && m'[name] == client
    ensures forall n :: n in m && n != name ==> m'[n] == m[n]
  {
    m[name := client]
  }

  /** `get_provider`: fails exactly when `name` has no entry, with an error
      carrying that name; otherwise returns the stored client class. */
  function Lookup<C>(m: map<string, C>, name: string): (r: Result<C, LookupError>)
    ensures r.Success? <==> name in m
    ensures r.Success? ==> r.value == m[name]
    ensures r.Failure? ==> r.error.name == name
  {
    if name !in m then Failure(NotRegistered(name)) else Success(m[name])
  }

  /** The registry starts empty: every lookup fails until a registration. */
  lemma EmptyRegistryRejects<C>(name: string)
    ensures Lookup<C>(map[], name) == Failure(NotRegistered(name))
  {
  }

  /** Registering a name and looking it up gives back exactly that client. */
  lemma RegisterThenLookup<C>(m: map<string, C>, name: string, client: C)
    ensures Lookup(Register(m, name, client), name) == Success(client)
  {
  }

  /** A registration leaves the lookup of every other name as it was,
      including a failing one. */
  lemma RegisterPreservesOtherLookups<C>(m: map<string, C>, name: string, client: C, other: string)
    requires other != name
    ensures Lookup(Register(m, name, client), other) == Lookup(m, other)
  {
  }

  /** Registering the same name twice: the second silently replaces the first. */
  lemma RegisterTwiceLastWins<C>(m: map<string, C>, name: string, first: C, second: C)
    ensures Register(Register(m, name, first), name, second) == Register(m, name, second)
  {
  }

  /** Registrations of distinct names may happen in any order. */
  lemma RegisterDistinctCommute<C>(m: map<string, C>, a: string, ca: C, b: string, cb: C)
    requires a != b
    ensures Register(Register(m, a, ca), b, cb) == Register(Register(m, b, cb), a, ca)
  {
  }

  /** One call to `register_provider`. */
  datatype Registration<C> = Registration(name: string, client: C)

  /** The registry after the given calls to `register_provider`, in order,
      starting from the empty table. */
  function Replay<C>(log: seq<Registration<C>>): map<string, C>
  {
    if log == [] then map[]
    else
      var last := log[|log| - 1];
      Register(Replay(log[..|log| - 1]), last.name, last.client)
  }

  /** `client` was registered under `name` by the call at `i` of the log, and
      no later call registered `name` again. */
  ghost predicate LastRegisteredAt<C>(log: seq<Registration<C>>, name: string, client: C, i: int)
  {
    && 0 <= i < |log|
    && log[i] == Registration(name, client)
    && forall j :: i < j < |log| ==> log[j].name != name
  }

  /** Some call of the log is the last registration of `client` under `name`. */
  ghost predicate LastRegistered<C>(log: seq<Registration<C>>, name: string, client: C)
  {
    exists i :: LastRegisteredAt(log, name, client, i)
  }

  /** No call of the log registered `name`. */
  ghost predicate NeverRegistered<C>(log: seq<Registration<C>>, name: string)
  {
    forall i :: 0 <= i < |log| ==> log[i].name != name
  }

  /** Last write wins: after any sequence of registrations, a lookup succeeds
      with `client` exactly when `client` is the last class registered under
      that name. */
  lemma {:induction false} ReplayLastWriteWins<C>(log: seq<Registration<C>>, name: string, client: C)
    ensures Lookup(Replay(log), name) == Success(client) <==> LastRegistered(log, name, client)
  {
    if log != [] {
      var k := |log| - 1;
      var prefix := log[..k];
      ReplayLastWriteWins(prefix, name, client);
      if log[k].name == name {
        if Lookup(Replay(log), name) == Success(client) {
          assert LastRegisteredAt(log, name, client, k);
        }
        if LastRegistered(log, name, client) {
          var i :| LastRegisteredAt(log, name, client, i);
          assert i == k;
        }
      } else {
        if LastRegistered(prefix, name, client) {
          var i :| LastRegisteredAt(prefix, name, client, i);
          assert LastRegisteredAt(log, name, client, i);
        }
        if LastRegistered(log, name, client) {
          var i :| LastRegisteredAt(log, name, client, i);
          assert i < k;
          assert LastRegisteredAt(prefix, name, client, i);
        }
      }
    }
  }

  /** A lookup fails after a sequence of registrations exactly when none of
      them used that name. */
  lemma {:induction false} ReplayNeverRegistered<C>(log: seq<Registration<C>>, name: string)
    ensures Lookup(Replay(log), name) == Failure(NotRegistered(name)) <==> NeverRegistered(log, name)
  {
    if log != [] {
      var k := |log| - 1;
      ReplayNeverRegistered(log[..k], name);
      if log[k].name != name {
        assert forall i :: 0 <= i < k ==> log[..k][i] == log[i];
      }
    }
  }

  /** The registry object. The source keeps one module-level dict; this is
      that dict as the one field of an object, with a ghost log of the
      registrations made so far. */
  class ProviderRegistry<C> {
    var providers: map<string, C>
    ghost var history: seq<Registration<C>>

    /** The table is exactly what its registrations have built. */
    ghost predicate Valid()
      reads this
    {
      providers == Replay(history)
    }

    /** The registry starts empty. */
    constructor ()
      ensures Valid()
      ensures providers == map[] && history == []
    {
      providers := map[];
      history := [];
    }

    /** `register_provider`: inserts or overwrites the entry for `name`. */
    method RegisterProvider(name: string, client: C)
      requires Valid()
      modifies this
      ensures Valid()
      ensures providers == Register(old(providers), name, client)
      ensures history == old(history) + [Registration(name, client)]
    {
      providers := providers[name := client];
      history := history + [Registration(name, client)];
      assert history[..|history| - 1] == old(history);
    }

    /** `get_provider`: reads the table and changes nothing. */
    method GetProvider(name: string) returns (r: Result<C, LookupError>)
      ensures r == Lookup(providers, name)
    {
      if name !in providers {
        return Failure(NotRegistered(name));
      }
      return Success(providers[name]);
    }
  }
}
