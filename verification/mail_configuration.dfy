/** `DefaultMailConfigurationParser`: checking the required mail properties, copying the SMTP port
    to the socket-factory port, filling in defaults for absent keys and choosing the recipient type. */
module MailConfig {
  import opened Wrappers

  const UsernameKey: string := "mail.username"
  const PasswordKey: string := "mail.password"
  const ReceiveTypeKey: string := "mail.receive-type"
  const HostKey: string := "mail.smtp.host"
  const PortKey: string := "mail.smtp.port"
  const SocketFactoryPortKey: string := "mail.smtp.socketFactory.port"

  const SslSocketFactory: string := "javax.net.ssl.SSLSocketFactory"

  /** The nine keys `setDefaultMailProperties` gives a default. */
  const DefaultKeys: set<string> := {
    ReceiveTypeKey, "mail.smtp.auth", "mail.transport.protocol", "mail.smtp.ssl.enable",
    "mail.smtp.starttls.enable", "mail.smtp.starttls.required", "mail.smtp.socketFactory.class",
    "mail.smtp.socketFactory.fallback", "mail.smtp.ssl.socketFactory.class"
  }

  /** `Message.RecipientType`. */
  datatype RecipientType = TO | CC | BCC

  /** The two `MailConfigurationException`s. */
  datatype MailError = MissingUsernameOrPassword | MissingHostOrPort

  /** The parsed configuration: credentials, the full property map and the recipient type. */
  datatype MailConfiguration = MailConfiguration(username: string, password: string, properties: map<string, string>, receiveType: RecipientType)

  /** A `java.util.Properties` of string keys and values. */
  class Properties {
    var entries: map<string, string>

    constructor (entries: map<string, string>)
      ensures this.entries == entries
    {
      this.entries := entries;
    }

    /** `getProperty`: null (`None`) for an absent key. */
    function GetProperty(key: string): (r: Option<string>)
      reads this
      ensures r.Some? <==> key in entries
      ensures r.Some? ==> r.value == entries[key]
    {
      if key in entries then Some(entries[key]) else None
    }

    method SetProperty(key: string, value: string)
      modifies this
      ensures entries == old(entries)[key := value]
    {
      entries := entries[key := value];
    }
  }

  /** The four keys `checkedRequiredProperties` insists on. */
  predicate HasRequired(m: map<string, string>) {
    UsernameKey in m && PasswordKey in m && HostKey in m && PortKey in m
  }

  function PutIfAbsent(m: map<string, string>, key: string, value: string): map<string, string> {
    if key in m then m else m[key := value]
  }

  /** `setDefaultMailProperties` on a map: the nine set-if-absent steps in order. */
  function Defaulted(m: map<string, string>): map<string, string> {
    var m1 := PutIfAbsent(m, ReceiveTypeKey, "to");
    var m2 := PutIfAbsent(m1, "mail.smtp.auth", "true");
    var m3 := PutIfAbsent(m2, "mail.transport.protocol", "smtp");
    var m4 := PutIfAbsent(m3, "mail.smtp.ssl.enable", "true");
    var m5 := PutIfAbsent(m4, "mail.smtp.starttls.enable", "true");
    var m6 := PutIfAbsent(m5, "mail.smtp.starttls.required", "true");
    var m7 := PutIfAbsent(m6, "mail.smtp.socketFactory.class", SslSocketFactory);
    var m8 := PutIfAbsent(m7, "mail.smtp.socketFactory.fallback", "false");
    PutIfAbsent(m8, "mail.smtp.ssl.socketFactory.class", SslSocketFactory)
  }

  lemma PutIfAbsentKeeps(m: map<string, string>, key: string, value: string)
    ensures forall k :: k in m ==> k in PutIfAbsent(m, key, value) && PutIfAbsent(m, key, value)[k] == m[k]
    ensures PutIfAbsent(m, key, value).Keys == m.Keys + {key}
  {
  }

  /** Defaulting keeps every present key with its value. */
  lemma DefaultedKeeps(m: map<string, string>)
    ensures forall k :: k in m ==> k in Defaulted(m) && Defaulted(m)[k] == m[k]
  {
    var m1 := PutIfAbsent(m, ReceiveTypeKey, "to");
    var m2 := PutIfAbsent(m1, "mail.smtp.auth", "true");
    var m3 := PutIfAbsent(m2, "mail.transport.protocol", "smtp");
    var m4 := PutIfAbsent(m3, "mail.smtp.ssl.enable", "true");
    var m5 := PutIfAbsent(m4, "mail.smtp.starttls.enable", "true");
    var m6 := PutIfAbsent(m5, "mail.smtp.starttls.required", "true");
    var m7 := PutIfAbsent(m6, "mail.smtp.socketFactory.class", SslSocketFactory);
    var m8 := PutIfAbsent(m7, "mail.smtp.socketFactory.fallback", "false");
    PutIfAbsentKeeps(m, ReceiveTypeKey, "to");
    PutIfAbsentKeeps(m1, "mail.smtp.auth", "true");
    PutIfAbsentKeeps(m2, "mail.transport.protocol", "smtp");
    PutIfAbsentKeeps(m3, "mail.smtp.ssl.enable", "true");
    PutIfAbsentKeeps(m4, "mail.smtp.starttls.enable", "true");
    PutIfAbsentKeeps(m5, "mail.smtp.starttls.required", "true");
    PutIfAbsentKeeps(m6, "mail.smtp.socketFactory.class", SslSocketFactory);
    PutIfAbsentKeeps(m7, "mail.smtp.socketFactory.fallback", "false");
    PutIfAbsentKeeps(m8, "mail.smtp.ssl.socketFactory.class", SslSocketFactory);
  }

  predicate HasDefaults(m: map<string, string>) {
    forall k :: k in DefaultKeys ==> k in m
  }

  lemma PutIfAbsentKeys(m: map<string, string>, key: string, value: string)
    ensures PutIfAbsent(m, key, value).Keys == m.Keys + {key}
  {
  }

  /** After defaulting every default key is present. */
  lemma DefaultedKeys(m: map<string, string>)
    ensures HasDefaults(Defaulted(m))
  {
    var m1 := PutIfAbsent(m, ReceiveTypeKey, "to");
    var m2 := PutIfAbsent(m1, "mail.smtp.auth", "true");
    var m3 := PutIfAbsent(m2, "mail.transport.protocol", "smtp");
    var m4 := PutIfAbsent(m3, "mail.smtp.ssl.enable", "true");
    var m5 := PutIfAbsent(m4, "mail.smtp.starttls.enable", "true");
    var m6 := PutIfAbsent(m5, "mail.smtp.starttls.required", "true");
    var m7 := PutIfAbsent(m6, "mail.smtp.socketFactory.class", SslSocketFactory);
    var m8 := PutIfAbsent(m7, "mail.smtp.socketFactory.fallback", "false");
    PutIfAbsentKeys(m, ReceiveTypeKey, "to");
    PutIfAbsentKeys(m1, "mail.smtp.auth", "true");
    PutIfAbsentKeys(m2, "mail.transport.protocol", "smtp");
    PutIfAbsentKeys(m3, "mail.smtp.ssl.enable", "true");
    PutIfAbsentKeys(m4, "mail.smtp.starttls.enable", "true");
    PutIfAbsentKeys(m5, "mail.smtp.starttls.required", "true");
    PutIfAbsentKeys(m6, "mail.smtp.socketFactory.class", SslSocketFactory);
    PutIfAbsentKeys(m7, "mail.smtp.socketFactory.fallback", "false");
    PutIfAbsentKeys(m8, "mail.smtp.ssl.socketFactory.class", SslSocketFactory);
  }

  lemma PutIfAbsentHas(m: map<string, string>, key: string, value: string, k: string)
    ensures k in PutIfAbsent(m, key, value) <==> k in m || k == key
  {
  }

  /** Defaulting adds no key other than the default ones. */
  lemma DefaultedAddsOnlyDefaults(m: map<string, string>, k: string)
    requires k in Defaulted(m) && k !in m
    ensures k in DefaultKeys
  {
    var m1 := PutIfAbsent(m, ReceiveTypeKey, "to");
    var m2 := PutIfAbsent(m1, "mail.smtp.auth", "true");
    var m3 := PutIfAbsent(m2, "mail.transport.protocol", "smtp");
    var m4 := PutIfAbsent(m3, "mail.smtp.ssl.enable", "true");
    var m5 := PutIfAbsent(m4, "mail.smtp.starttls.enable", "true");
    var m6 := PutIfAbsent(m5, "mail.smtp.starttls.required", "true");
    var m7 := PutIfAbsent(m6, "mail.smtp.socketFactory.class", SslSocketFactory);
    var m8 := PutIfAbsent(m7, "mail.smtp.socketFactory.fallback", "false");
    PutIfAbsentHas(m, ReceiveTypeKey, "to", k);
    PutIfAbsentHas(m1, "mail.smtp.auth", "true", k);
    PutIfAbsentHas(m2, "mail.transport.protocol", "smtp", k);
    PutIfAbsentHas(m3, "mail.smtp.ssl.enable", "true", k);
    PutIfAbsentHas(m4, "mail.smtp.starttls.enable", "true", k);
    PutIfAbsentHas(m5, "mail.smtp.starttls.required", "true", k);
    PutIfAbsentHas(m6, "mail.smtp.socketFactory.class", SslSocketFactory, k);
    PutIfAbsentHas(m7, "mail.smtp.socketFactory.fallback", "false", k);
    PutIfAbsentHas(m8, "mail.smtp.ssl.socketFactory.class", SslSocketFactory, k);
  }

  /** A second application of the defaults changes nothing. */
  lemma DefaultedIdempotent(m: map<string, string>)
    ensures Defaulted(Defaulted(m)) == Defaulted(m)
  {
    var d := Defaulted(m);
    DefaultedKeys(m);
    assert ReceiveTypeKey in d && "mail.smtp.auth" in d && "mail.transport.protocol" in d;
    assert "mail.smtp.ssl.enable" in d && "mail.smtp.starttls.enable" in d && "mail.smtp.starttls.required" in d;
    assert "mail.smtp.socketFactory.class" in d && "mail.smtp.socketFactory.fallback" in d;
    assert "mail.smtp.ssl.socketFactory.class" in d;
  }

  /** An absent receive type becomes "to", which later steps keep. */
  lemma ReceiveTypeDefaultsToTo(m: map<string, string>)
    requires ReceiveTypeKey !in m
    ensures ReceiveTypeKey in Defaulted(m) && Defaulted(m)[ReceiveTypeKey] == "to"
  {
    var m1 := PutIfAbsent(m, ReceiveTypeKey, "to");
    var m2 := PutIfAbsent(m1, "mail.smtp.auth", "true");
    var m3 := PutIfAbsent(m2, "mail.transport.protocol", "smtp");
    var m4 := PutIfAbsent(m3, "mail.smtp.ssl.enable", "true");
    var m5 := PutIfAbsent(m4, "mail.smtp.starttls.enable", "true");
    var m6 := PutIfAbsent(m5, "mail.smtp.starttls.required", "true");
    var m7 := PutIfAbsent(m6, "mail.smtp.socketFactory.class", SslSocketFactory);
    var m8 := PutIfAbsent(m7, "mail.smtp.socketFactory.fallback", "false");
    assert m1[ReceiveTypeKey] == "to";
    PutIfAbsentKeeps(m1, "mail.smtp.auth", "true");
    PutIfAbsentKeeps(m2, "mail.transport.protocol", "smtp");
    PutIfAbsentKeeps(m3, "mail.smtp.ssl.enable", "true");
    PutIfAbsentKeeps(m4, "mail.smtp.starttls.enable", "true");
    PutIfAbsentKeeps(m5, "mail.smtp.starttls.required", "true");
    PutIfAbsentKeeps(m6, "mail.smtp.socketFactory.class", SslSocketFactory);
    PutIfAbsentKeeps(m7, "mail.smtp.socketFactory.fallback", "false");
    PutIfAbsentKeeps(m8, "mail.smtp.ssl.socketFactory.class", SslSocketFactory);
  }

  /** Receive-type mapping: "cc" and "bcc" select CC and BCC, any other value TO. */
  function ReceiveTypeOf(value: string): (r: RecipientType)
    ensures r == CC <==> value == "cc"
    ensures r == BCC <==> value == "bcc"
    ensures r == TO <==> value != "cc" && value != "bcc"
  {
    if value == "cc" then CC else if value == "bcc" then BCC else TO
  }

  /** `checkedRequiredProperties`: the username and password first, then the host and port; on
      success the socket-factory port is set to the SMTP port. A failure changes nothing. */
  method CheckedRequiredProperties(props: Properties) returns (err: Option<MailError>)
    modifies props
    ensures err.None? <==> HasRequired(old(props.entries))
    ensures err == Some(MissingUsernameOrPassword) <==> UsernameKey !in old(props.entries) || PasswordKey !in old(props.entries)
    ensures err.Some? ==> props.entries == old(props.entries)
    ensures err.None? ==> props.entries == old(props.entries)[SocketFactoryPortKey := old(props.entries)[PortKey]]
  {
    if props.GetProperty(UsernameKey).None? || props.GetProperty(PasswordKey).None? {
      return Some(MissingUsernameOrPassword);
    }
    if props.GetProperty(HostKey).None? || props.GetProperty(PortKey).None? {
      return Some(MissingHostOrPort);
    }
    props.SetProperty(SocketFactoryPortKey, props.GetProperty(PortKey).value);
    err := None;
  }

  /** `setDefaultMailProperties`: write each default only where its key is absent. */
  method SetDefaultMailProperties(props: Properties)
    modifies props
    ensures props.entries == Defaulted(old(props.entries))
  {
    SetIfAbsent(props, ReceiveTypeKey, "to");
    SetIfAbsent(props, "mail.smtp.auth", "true");
    SetIfAbsent(props, "mail.transport.protocol", "smtp");
    SetIfAbsent(props, "mail.smtp.ssl.enable", "true");
    SetIfAbsent(props, "mail.smtp.starttls.enable", "true");
    SetIfAbsent(props, "mail.smtp.starttls.required", "true");
    SetIfAbsent(props, "mail.smtp.socketFactory.class", SslSocketFactory);
    SetIfAbsent(props, "mail.smtp.socketFactory.fallback", "false");
    SetIfAbsent(props, "mail.smtp.ssl.socketFactory.class", SslSocketFactory);
  }

  /** One `if (getProperty(key) == null) setProperty(key, value)` step. */
  method SetIfAbsent(props: Properties, key: string, value: string)
    modifies props
    ensures props.entries == PutIfAbsent(old(props.entries), key, value)
  {
    if props.GetProperty(key).None? {
      props.SetProperty(key, value);
    }
  }

  /** `parse` once the properties are loaded: the required-key check runs before defaulting, so a
      failure leaves the properties as they were; on success the configuration carries the
      credentials, the completed properties and the recipient type they select. */
  method Parse(props: Properties) returns (r: Result<MailConfiguration, MailError>)
    modifies props
    ensures r.Failure? <==> !HasRequired(old(props.entries))
    ensures r.Failure? ==> props.entries == old(props.entries)
    ensures r.Success? ==> (
      && props.entries == Defaulted(old(props.entries)[SocketFactoryPortKey := old(props.entries)[PortKey]])
      && r.value.username == old(props.entries)[UsernameKey]
      && r.value.password == old(props.entries)[PasswordKey]
      && r.value.properties == props.entries
      && r.value.receiveType == ReceiveTypeOf(props.entries[ReceiveTypeKey])
      && (ReceiveTypeKey !in old(props.entries) ==> r.value.receiveType == TO))
  {
    var err := CheckedRequiredProperties(props);
    if err.Some? {
      return Failure(err.value);
    }
    ghost var checked := props.entries;
    assert |UsernameKey| != |SocketFactoryPortKey| && |PasswordKey| != |SocketFactoryPortKey|;
    assert checked[UsernameKey] == old(props.entries)[UsernameKey] && checked[PasswordKey] == old(props.entries)[PasswordKey];
    SetDefaultMailProperties(props);
    DefaultedKeys(checked);
    DefaultedKeeps(checked);
    assert ReceiveTypeKey in DefaultKeys;
    if ReceiveTypeKey !in old(props.entries) {
      assert |ReceiveTypeKey| != |SocketFactoryPortKey|;
      ReceiveTypeDefaultsToTo(checked);
    }
    var receiveType := props.GetProperty(ReceiveTypeKey).value;
    r := Success(MailConfiguration(props.GetProperty(UsernameKey).value, props.GetProperty(PasswordKey).value,
                                   props.entries, ReceiveTypeOf(receiveType)));
  }
}
