/** The bot's mutable configuration and the panel's `/save-config` route
    (index.js:228-242): each field present in the request body replaces the current one,
    and `saveConfig` (index.js:109-119) persists the result unless the configuration
    comes from the environment. */
module Settings {
  import opened Wrappers

  /** A value from a JSON request body; the route copies these without checking types. */
  datatype JsonValue = JNull | JBool(b: bool) | JNumber(n: int) | JString(s: string)

  /** The fields of `CONFIG` the route may change, plus the two it never touches. */
  datatype ConfigSnapshot = ConfigSnapshot(
    mainChannelId: JsonValue,
    deliveryChannelId: JsonValue,
    mainMessageId: JsonValue,
    clientRoleId: JsonValue,
    guildId: JsonValue,
    reviewsChannelId: JsonValue,
    efiClientId: JsonValue,
    efiClientSecret: JsonValue,
    efiSandbox: bool,
    baseUrl: JsonValue,
    isManagedExternally: bool)

  /** The destructured request body: `None` for a field that is `undefined`. */
  datatype ConfigPatch = ConfigPatch(
    mainChannelId: Option<JsonValue>,
    deliveryChannelId: Option<JsonValue>,
    mainMessageId: Option<JsonValue>,
    clientRoleId: Option<JsonValue>,
    guildId: Option<JsonValue>,
    reviewsChannelId: Option<JsonValue>,
    efiClientId: Option<JsonValue>,
    efiClientSecret: Option<JsonValue>,
    efiSandbox: Option<JsonValue>)

  /** `efiSandbox === true || efiSandbox === 'true'`. */
  function SandboxFlag(v: JsonValue): (b: bool)
    ensures b <==> v == JBool(true) || v == JString("true")
  {
    match v
    case JBool(x) => x
    case JString(s) => s == "true"
    case _ => false
  }

  /** The configuration after the patch, as the route's assignments leave it. */
  function ApplyPatch(c: ConfigSnapshot, p: ConfigPatch): (r: ConfigSnapshot)
    ensures r.baseUrl == c.baseUrl && r.isManagedExternally == c.isManagedExternally
  {
    c.(mainChannelId := p.mainChannelId.GetOr(c.mainChannelId),
       deliveryChannelId := p.deliveryChannelId.GetOr(c.deliveryChannelId),
       mainMessageId := p.mainMessageId.GetOr(c.mainMessageId),
       clientRoleId := p.clientRoleId.GetOr(c.clientRoleId),
       guildId := p.guildId.GetOr(c.guildId),
       reviewsChannelId := p.reviewsChannelId.GetOr(c.reviewsChannelId),
       efiClientId := p.efiClientId.GetOr(c.efiClientId),
       efiClientSecret := p.efiClientSecret.GetOr(c.efiClientSecret),
       efiSandbox := if p.efiSandbox.Some? then SandboxFlag(p.efiSandbox.value) else c.efiSandbox)
  }

  const EmptyPatch := ConfigPatch(None, None, None, None, None, None, None, None, None)

  /** Only defined fields change; `baseUrl` and the external flag never do; sending the
      same body twice is the same as sending it once. */
  lemma PatchProperties(c: ConfigSnapshot, p: ConfigPatch)
    ensures ApplyPatch(c, EmptyPatch) == c
    ensures ApplyPatch(ApplyPatch(c, p), p) == ApplyPatch(c, p)
    ensures ApplyPatch(c, p).baseUrl == c.baseUrl
    ensures ApplyPatch(c, p).isManagedExternally == c.isManagedExternally
    ensures p.mainChannelId.None? ==> ApplyPatch(c, p).mainChannelId == c.mainChannelId
    ensures p.mainChannelId.Some? ==> ApplyPatch(c, p).mainChannelId == p.mainChannelId.value
    ensures p.deliveryChannelId.None? ==> ApplyPatch(c, p).deliveryChannelId == c.deliveryChannelId
    ensures p.deliveryChannelId.Some? ==> ApplyPatch(c, p).deliveryChannelId == p.deliveryChannelId.value
    ensures p.mainMessageId.None? ==> ApplyPatch(c, p).mainMessageId == c.mainMessageId
    ensures p.mainMessageId.Some? ==> ApplyPatch(c, p).mainMessageId == p.mainMessageId.value
    ensures p.clientRoleId.None? ==> ApplyPatch(c, p).clientRoleId == c.clientRoleId
    ensures p.clientRoleId.Some? ==> ApplyPatch(c, p).clientRoleId == p.clientRoleId.value
    ensures p.guildId.None? ==> ApplyPatch(c, p).guildId == c.guildId
    ensures p.guildId.Some? ==> ApplyPatch(c, p).guildId == p.guildId.value
    ensures p.reviewsChannelId.None? ==> ApplyPatch(c, p).reviewsChannelId == c.reviewsChannelId
    ensures p.reviewsChannelId.Some? ==> ApplyPatch(c, p).reviewsChannelId == p.reviewsChannelId.value
    ensures p.efiClientId.None? ==> ApplyPatch(c, p).efiClientId == c.efiClientId
    ensures p.efiClientId.Some? ==> ApplyPatch(c, p).efiClientId == p.efiClientId.value
    ensures p.efiClientSecret.None? ==> ApplyPatch(c, p).efiClientSecret == c.efiClientSecret
    ensures p.efiClientSecret.Some? ==> ApplyPatch(c, p).efiClientSecret == p.efiClientSecret.value
    ensures p.efiSandbox.None? ==> ApplyPatch(c, p).efiSandbox == c.efiSandbox
    ensures p.efiSandbox.Some? ==>
      (ApplyPatch(c, p).efiSandbox <==> p.efiSandbox.value in {JBool(true), JString("true")})
  {
  }

  /** `CONFIG` and the configuration row it is saved to. */
  class Config {
    var mainChannelId: JsonValue
    var deliveryChannelId: JsonValue
    var mainMessageId: JsonValue
    var clientRoleId: JsonValue
    var guildId: JsonValue
    var reviewsChannelId: JsonValue
    var efiClientId: JsonValue
    var efiClientSecret: JsonValue
    var efiSandbox: bool
    var baseUrl: JsonValue
    var isManagedExternally: bool
    /** The saved configuration row, `None` before the first save. */
    var persisted: Option<ConfigSnapshot>

    function Snapshot(): ConfigSnapshot
      reads this
    {
      ConfigSnapshot(mainChannelId, deliveryChannelId, mainMessageId, clientRoleId, guildId,
                     reviewsChannelId, efiClientId, efiClientSecret, efiSandbox, baseUrl,
                     isManagedExternally)
    }

    /** The defaults `CONFIG` starts with. */
    constructor ()
      ensures Snapshot() == ConfigSnapshot(JString(""), JString(""), JString(""), JString(""),
                                           JString(""), JString(""), JString(""), JString(""),
                                           true, JString(""), false)
      ensures persisted.None?
    {
      mainChannelId, deliveryChannelId, mainMessageId := JString(""), JString(""), JString("");
      clientRoleId, guildId, reviewsChannelId := JString(""), JString(""), JString("");
      efiClientId, efiClientSecret, efiSandbox := JString(""), JString(""), true;
      baseUrl, isManagedExternally := JString(""), false;
      persisted := None;
    }

    /** `saveConfig`: does nothing when the configuration is managed externally, else
        writes the whole current configuration. */
    method SaveConfig()
      modifies this`persisted
      ensures persisted == if isManagedExternally then old(persisted) else Some(Snapshot())
    {
      if isManagedExternally {
        return;
      }
      persisted := Some(Snapshot());
    }

    /** `/save-config`: the defined fields one by one, then `saveConfig`. */
    method SaveConfigRoute(p: ConfigPatch)
      modifies this
      ensures Snapshot() == ApplyPatch(old(Snapshot()), p)
      ensures persisted == if isManagedExternally then old(persisted) else Some(Snapshot())
    {
      ghost var target := ApplyPatch(Snapshot(), p);
      mainChannelId := p.mainChannelId.GetOr(mainChannelId);
      deliveryChannelId := p.deliveryChannelId.GetOr(deliveryChannelId);
      mainMessageId := p.mainMessageId.GetOr(mainMessageId);
      clientRoleId := p.clientRoleId.GetOr(clientRoleId);
      guildId := p.guildId.GetOr(guildId);
      reviewsChannelId := p.reviewsChannelId.GetOr(reviewsChannelId);
      efiClientId := p.efiClientId.GetOr(efiClientId);
      efiClientSecret := p.efiClientSecret.GetOr(efiClientSecret);
      if p.efiSandbox.Some? { efiSandbox := SandboxFlag(p.efiSandbox.value); }
      assert Snapshot() == target;
      SaveConfig();
    }
  }
}
