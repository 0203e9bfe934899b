/**
  A caller of the registry, written against the contracts of
  `Registry.ProviderRegistry` alone: the start-up registrations of the two
  provider modules, a re-registration, and the lookups a request path makes.
 */
module RegistryScenarios {
  import opened Registry

  /** Stand-ins for the two client classes the registry module imports. */
  datatype ClientClass = BedrockClient | GeminiClient

  method StartupThenLookups()
  {
    var registry := new ProviderRegistry<ClientClass>();

    var r := registry.GetProvider("gemini");
    assert r == Failure(NotRegistered("gemini"));

    registry.RegisterProvider("gemini", GeminiClient);
    registry.RegisterProvider("bedrock", BedrockClient);
    r := registry.GetProvider("gemini");
    assert r == Success(GeminiClient);

    // A second registration under the same name replaces the first.
    registry.RegisterProvider("gemini", BedrockClient);
    r := registry.GetProvider("gemini");
    assert r == Success(BedrockClient);
  }

  method UnknownProviderFails()
  {
    var registry := new ProviderRegistry<ClientClass>();
    registry.RegisterProvider("gemini", GeminiClient);

    // A name nobody registered fails, and its message names it.
    var r := registry.GetProvider("unknown");
    assert r == Failure(NotRegistered("unknown"));
    MessageRoundTrip("unknown");
    assert ParseMessage(r.error.Message()) == Some("unknown");
  }
}
