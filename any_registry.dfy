/**
 * The registry behind `Google_Protobuf_Any`: the type URLs an `Any` carries,
 * and the two name-keyed tables that map a protobuf message name to the
 * Swift type registered for it and to the `MessageInfo` built from that type.
 */
module AnyRegistry {
  import opened Wrappers
  import opened Messages

  /**
   * The type name a URL names: the part after its last '/', or the whole
   * string when it has none. This is the specification of
   * `typeName(fromURL:)`; `TypeNameFromURL` computes it with the source's loop.
   */
  function TypeName(s: string): (r: string)
    ensures '/' !in r
    ensures |r| <= |s| && r == s[|s| - |r|..]
    ensures |r| < |s| ==> s[|s| - |r| - 1] == '/'
  {
    if |s| == 0 || s[|s| - 1] == '/' then ""
    else
      var init := s[..|s| - 1];
      var r := TypeName(init) + [s[|s| - 1]];
      assert s[|s| - |r|..] == init[|init| - |r| + 1..] + [s[|s| - 1]];
      r
  }

  /**
   * The three properties in `TypeName`'s contract pin it down: a suffix of
   * `s` without '/' that is either all of `s` or preceded by '/' is the
   * type name of `s`.
   */
  lemma TypeNameIsLastSegment(s: string, t: string)
    requires |t| <= |s| && t == s[|s| - |t|..] && '/' !in t
    requires |t| < |s| ==> s[|s| - |t| - 1] == '/'
    ensures TypeName(s) == t
  {
  }

  /** `typeName(fromURL:)`: scans the URL once, remembering where the text after the latest '/' starts. */
  method TypeNameFromURL(s: string) returns (r: string)
    ensures r == TypeName(s)
  {
    var typeStart := 0;
    var i := typeStart;
    while i < |s|
      invariant typeStart <= i <= |s|
      invariant forall j | typeStart <= j < i :: s[j] != '/'
      invariant typeStart > 0 ==> s[typeStart - 1] == '/'
    {
      var c := s[i];
      i := i + 1;
      if c == '/' {
        typeStart := i;
      }
    }
    r := s[typeStart..];
    TypeNameIsLastSegment(s, r);
  }

  /** Whether a '/' has to go between `typePrefix` and the type name. */
  function NeedsSlash(typePrefix: string): (b: bool)
    ensures !b <==> |typePrefix| >= 1 && typePrefix[|typePrefix| - 1..] == "/"
  {
    |typePrefix| == 0 || typePrefix[|typePrefix| - 1] != '/'
  }

  /**
   * The type URL for a message named `name` under `typePrefix`: the prefix
   * unchanged, then the name, with exactly one '/' between them, added
   * when the prefix does not already end with one.
   */
  function TypeURL(typePrefix: string, name: string): (url: string)
    ensures |url| == |typePrefix| + |name| + (if NeedsSlash(typePrefix) then 1 else 0)
    ensures url[..|typePrefix|] == typePrefix
    ensures url[|url| - |name|..] == name
    ensures url[|url| - |name| - 1] == '/'
  {
    (if NeedsSlash(typePrefix) then typePrefix + "/" else typePrefix) + name
  }

  /** `buildTypeURL(forMessage:typePrefix:)`, with `typeName(fromMessage:)` read off as `protoMessageName`. */
  method BuildTypeURL(message: MessageType, typePrefix: string) returns (url: string)
    ensures url == TypeURL(typePrefix, message.protoMessageName)
  {
    url := typePrefix;
    var needsSlash := |typePrefix| == 0 || typePrefix[|typePrefix| - 1] != '/';
    if needsSlash {
      url := url + "/";
    }
    url := url + message.protoMessageName;
  }

  /** A URL built for a message name without '/' yields that name back, whatever the prefix. */
  lemma TypeNameOfTypeURL(typePrefix: string, name: string)
    requires '/' !in name
    ensures TypeName(TypeURL(typePrefix, name)) == name
  {
    TypeNameIsLastSegment(TypeURL(typePrefix, name), name);
  }

  /**
   * What the registry keeps per name: in the source, closures that create a
   * message of the registered type (empty, from JSON, or from binary). All
   * three are determined by the type, so the type stands for them.
   */
  datatype MessageInfo = MessageInfo(messageType: MessageType)

  /** The seventeen well-known types both tables start with, keyed by their protobuf names. */
  const WellKnownTypes: map<string, MessageType> := map[
    "google.protobuf.Any" := MessageType("Google_Protobuf_Any", "google.protobuf.Any"),
    "google.protobuf.BoolValue" := MessageType("Google_Protobuf_BoolValue", "google.protobuf.BoolValue"),
    "google.protobuf.BytesValue" := MessageType("Google_Protobuf_BytesValue", "google.protobuf.BytesValue"),
    "google.protobuf.DoubleValue" := MessageType("Google_Protobuf_DoubleValue", "google.protobuf.DoubleValue"),
    "google.protobuf.Duration" := MessageType("Google_Protobuf_Duration", "google.protobuf.Duration"),
    "google.protobuf.Empty" := MessageType("Google_Protobuf_Empty", "google.protobuf.Empty"),
    "google.protobuf.FieldMask" := MessageType("Google_Protobuf_FieldMask", "google.protobuf.FieldMask"),
    "google.protobuf.FloatValue" := MessageType("Google_Protobuf_FloatValue", "google.protobuf.FloatValue"),
    "google.protobuf.Int32Value" := MessageType("Google_Protobuf_Int32Value", "google.protobuf.Int32Value"),
    "google.protobuf.Int64Value" := MessageType("Google_Protobuf_Int64Value", "google.protobuf.Int64Value"),
    "google.protobuf.ListValue" := MessageType("Google_Protobuf_ListValue", "google.protobuf.ListValue"),
    "google.protobuf.StringValue" := MessageType("Google_Protobuf_StringValue", "google.protobuf.StringValue"),
    "google.protobuf.Struct" := MessageType("Google_Protobuf_Struct", "google.protobuf.Struct"),
    "google.protobuf.Timestamp" := MessageType("Google_Protobuf_Timestamp", "google.protobuf.Timestamp"),
    "google.protobuf.UInt32Value" := MessageType("Google_Protobuf_UInt32Value", "google.protobuf.UInt32Value"),
    "google.protobuf.UInt64Value" := MessageType("Google_Protobuf_UInt64Value", "google.protobuf.UInt64Value"),
    "google.protobuf.Value" := MessageType("Google_Protobuf_Value", "google.protobuf.Value")
  ]

  /**
   * The process-wide tables `knownTypes` and `typeRegistry`. Every access in
   * the source runs on one serial queue, so the registry is a single object
   * whose methods run one at a time.
   */
  class TypeRegistry {
    var knownTypes: map<string, MessageType>
    var typeRegistry: map<string, MessageInfo>

    /**
     * The tables have the same names; each info is the one built from the
     * known type; and every type is filed under its own protobuf name.
     */
    ghost predicate Valid()
      reads this
    {
      && knownTypes.Keys == typeRegistry.Keys
      && (forall name | name in knownTypes :: typeRegistry[name] == MessageInfo(knownTypes[name]))
      && (forall name | name in knownTypes :: knownTypes[name].protoMessageName == name)
    }

    /** Both tables seeded with the well-known types. */
    constructor ()
      ensures Valid()
      ensures knownTypes == WellKnownTypes
    {
      knownTypes := WellKnownTypes;
      typeRegistry := map name | name in WellKnownTypes :: MessageInfo(WellKnownTypes[name]);
    }

    /**
     * `register(messageType:)`. A new name goes into both tables and the
     * call succeeds. A name already present changes nothing; the call
     * succeeds exactly when it is the same type that is registered there.
     */
    method Register(messageType: MessageType) returns (result: bool)
      requires Valid()
      modifies this
      ensures Valid()
      ensures var name := messageType.protoMessageName;
        if name in old(knownTypes) then
          && result == (old(knownTypes)[name] == messageType)
          && knownTypes == old(knownTypes)
          && typeRegistry == old(typeRegistry)
        else
          && result
          && knownTypes == old(knownTypes)[name := messageType]
          && typeRegistry == old(typeRegistry)[name := MessageInfo(messageType)]
      ensures result <==> MessageTypeForName(messageType.protoMessageName) == Some(messageType)
      ensures result ==> IsMessageTypeRegisteredForName(messageType.protoMessageName)
    {
      var messageTypeName := messageType.protoMessageName;
      result := false;
      if messageTypeName in knownTypes {
        var alreadyRegistered := knownTypes[messageTypeName];
        result := alreadyRegistered == messageType;
      } else {
        knownTypes := knownTypes[messageTypeName := messageType];
        typeRegistry := typeRegistry[messageTypeName := MessageInfo(messageType)];
        result := true;
      }
    }

    /** The `knownTypes` lookup by name that `messageType(forTypeURL:)` performs. */
    function MessageTypeForName(name: string): (r: Option<MessageType>)
      reads this
      requires Valid()
      ensures r.Some? <==> name in knownTypes
      ensures r.Some? ==> r.value.protoMessageName == name
    {
      if name in knownTypes then Some(knownTypes[name]) else None
    }

    /** `messageType(forTypeURL:)`: the type registered under the URL's type name. */
    function MessageTypeForURL(url: string): (r: Option<MessageType>)
      reads this
      requires Valid()
      ensures r.Some? <==> TypeName(url) in knownTypes
      ensures r.Some? ==> r.value.protoMessageName == TypeName(url)
    {
      MessageTypeForName(TypeName(url))
    }

    /** `messageInfo(forMessageName:)`: the `typeRegistry` entry for the name. */
    function MessageInfoForName(name: string): (r: Option<MessageInfo>)
      reads this
      requires Valid()
      ensures r.Some? <==> name in typeRegistry
      ensures r.Some? ==> MessageTypeForName(name) == Some(r.value.messageType)
    {
      if name in typeRegistry then Some(typeRegistry[name]) else None
    }

    /** `messageInfo(forTypeURL:)`: the info registered under the URL's type name. */
    function MessageInfoForURL(url: string): (r: Option<MessageInfo>)
      reads this
      requires Valid()
      ensures r.Some? <==> MessageTypeForURL(url).Some?
      ensures r.Some? ==> r.value.messageType.protoMessageName == TypeName(url)
    {
      MessageInfoForName(TypeName(url))
    }

    /** `isMessageTypeRegistered(forMessageName:)`: whether `typeRegistry` has the name. */
    function IsMessageTypeRegisteredForName(name: string): (b: bool)
      reads this
      requires Valid()
      ensures b <==> name in typeRegistry
      ensures b <==> MessageTypeForName(name).Some?
    {
      MessageInfoForName(name) != None
    }

    /** `isMessageTypeRegistered(forTypeURL:)`: whether the URL's type name is registered. */
    function IsMessageTypeRegisteredForURL(url: string): (b: bool)
      reads this
      requires Valid()
      ensures b <==> MessageTypeForURL(url).Some?
    {
      IsMessageTypeRegisteredForName(TypeName(url))
    }

    /** A type registered under its name is found through any URL built for it, whatever the prefix. */
    lemma FoundByTypeURL(messageType: MessageType, typePrefix: string)
      requires Valid() && '/' !in messageType.protoMessageName
      requires MessageTypeForName(messageType.protoMessageName) == Some(messageType)
      ensures MessageTypeForURL(TypeURL(typePrefix, messageType.protoMessageName)) == Some(messageType)
      ensures IsMessageTypeRegisteredForURL(TypeURL(typePrefix, messageType.protoMessageName))
    {
      TypeNameOfTypeURL(typePrefix, messageType.protoMessageName);
    }
  }

  /**
   * Registering a type twice: the second call returns what the first did
   * and leaves the tables as the first left them.
   */
  method RegisterTwice(registry: TypeRegistry, messageType: MessageType) returns (first: bool, second: bool)
    requires registry.Valid()
    modifies registry
    ensures registry.Valid()
    ensures second == first
    ensures first ==> registry.MessageTypeForName(messageType.protoMessageName) == Some(messageType)
    ensures var name := messageType.protoMessageName;
      if name in old(registry.knownTypes) then
        registry.knownTypes == old(registry.knownTypes) && registry.typeRegistry == old(registry.typeRegistry)
      else
        && registry.knownTypes == old(registry.knownTypes)[name := messageType]
        && registry.typeRegistry == old(registry.typeRegistry)[name := MessageInfo(messageType)]
  {
    first := registry.Register(messageType);
    ghost var knownTypes, typeRegistry := registry.knownTypes, registry.typeRegistry;
    second := registry.Register(messageType);
    assert registry.knownTypes == knownTypes && registry.typeRegistry == typeRegistry;
  }
}
