# llm_kit provider registry, in Dafny

llm_kit puts several remote LLM providers behind one client interface. The
piece of it with behaviour of its own is the provider registry: one
process-wide dictionary from a provider name to the client class for that
provider, written by `register_provider` and read by `get_provider`.

This project models that registry (`registry.dfy`, module `Registry`):

- The client classes are opaque to the registry, so they are a type
  parameter `C`. The table is a `map<string, C>`.
- `Register` and `Lookup` are the two operations as functions on the table.
  `Register` is a plain map write with no precondition. `Lookup` returns a
  `Result`: the stored class, or a `LookupError` that carries the name.
- `LookupError.Message` is the exact text of the `ValueError` the source
  raises, `Provider '<name>' not registered`. `ParseMessage` reads the name
  back out of such a text; the round-trip lemma shows the message identifies
  the name.
- `Replay` is the table built by a sequence of registrations from the empty
  table. Two lemmas state last-write-wins and never-registered-fails
  declaratively over that sequence.
- `ProviderRegistry` is the mutable module-level dictionary as an object.
  Its field `providers` is the dictionary. `RegisterProvider` updates the
  field in place; `GetProvider` only reads it. A ghost field `history` logs
  the registrations, and `Valid()` says the table is `Replay(history)`.
  `Valid()` is the object invariant: the constructor sets it up and
  `RegisterProvider` keeps it. It is not a condition the source puts on its
  callers.

`scenarios.dfy` (module `RegistryScenarios`) is a caller written only
against those contracts. It registers two providers, re-registers one, and
looks names up, including one that was never registered.

The source and its design description differ in one place. The design calls
the lookup failure `ProviderNotRegistered(name)`. The code raises a
`ValueError` whose message holds the name. The model follows the code's
message text exactly and keeps the name in the error value.

## Model

| member | source | states |
|---|---|---|
| Registry.Register | llm_kit/core/registry.py:12-13 | after a registration, the name maps to the given class, the key set gains only that name, and every other entry is unchanged |
| Registry.Lookup | llm_kit/core/registry.py:27-30 | the lookup succeeds if and only if the name has an entry; on success it returns the stored class; on failure the error carries the looked-up name |
| Registry.LookupError.Message | llm_kit/core/registry.py:29 | the error message is the fixed prefix, then the offending name at a known position, then the fixed suffix |
| Registry.MessageRoundTrip | llm_kit/core/registry.py:29 | the name can be parsed back out of the error message |
| Registry.MessageIdentifiesName | llm_kit/core/registry.py:29 | two names that give the same error message are the same name |
| Registry.EmptyRegistryRejects | llm_kit/core/registry.py:9 | in the initial, empty registry every lookup fails with the error for that name |
| Registry.RegisterThenLookup | llm_kit/core/registry.py:12-30 | looking up a name just registered returns exactly the registered class |
| Registry.RegisterPreservesOtherLookups | llm_kit/core/registry.py:13 | a registration leaves the lookup result for every other name unchanged, failing ones included |
| Registry.RegisterTwiceLastWins | llm_kit/core/registry.py:13 | registering a name twice gives the same table as registering only the second class: no duplicate check, the second write replaces the first |
| Registry.RegisterDistinctCommute | llm_kit/core/registry.py:13 | registrations of different names give the same table in either order |
| Registry.ReplayLastWriteWins | llm_kit/core/registry.py:9-30 | after any sequence of registrations from the empty registry, a lookup returns a class if and only if that class is the last one registered under the name |
| Registry.ReplayNeverRegistered | llm_kit/core/registry.py:9-30 | after any sequence of registrations from the empty registry, a lookup fails if and only if no registration used the name |
| Registry.ProviderRegistry.constructor | llm_kit/core/registry.py:9 | the registry starts as the empty table with no registrations |
| Registry.ProviderRegistry.RegisterProvider | llm_kit/core/registry.py:12-13 | the table becomes the old table with the entry for the name written, and the registration is appended to the log |
| Registry.ProviderRegistry.GetProvider | llm_kit/core/registry.py:27-30 | returns the lookup result on the current table and modifies nothing |

## Left out

- The `@overload` signatures and the `ProviderName` literal type (llm_kit/core/registry.py:18-24) are static typing only. At run time any string reaches the dictionary, so names are plain strings here.
- The client classes `BaseLLMClient`, `BedrockClient` and `GeminiClient` and their text and JSON generation calls are remote calls whose code is not part of this model. They are the opaque type `C`; the scenario module uses a two-tag datatype as stand-ins.
- Python dictionaries accept any hashable key. Only string keys are modelled, as the declared type of the dictionary says.
- The exception type: the source raises `ValueError`. The model returns a `Failure` value instead; callers catching the exception correspond to matching on `Failure`.
- Concurrent registration and lookup. The source has no locking, and the model assumes sequential use.
- The smoke-test script under examples/ does network calls, file reads and printing. It holds no registry logic.
