/**
 * What the action controller does with an accepted gesture
 * (integration/ble_receiver.py, GestureActionController): the if/elif
 * dispatch from gesture name to command, and for each command the single
 * outbound request it would make under a given configuration. Requests are
 * values here (Effect); the network, the responses and the printing are not
 * modelled.
 */
module Routing {
  import opened Wrappers

  /**
   * The configuration entries the actions read. None is a key absent from the
   * dictionary; a value counts as set (Python truthiness) when it is a
   * non-empty string.
   */
  datatype Config = Config(
    hueBridge: Option<string>,
    hueToken: Option<string>,
    uberApiKey: Option<string>,
    homeAssistantUrl: Option<string>,
    homeAssistantToken: Option<string>)

  predicate IsSet(v: Option<string>)
  {
    v.Some? && v.value != ""
  }

  /** The action a gesture selects, with the arguments the dispatch passes. */
  datatype Command =
    | Light(lightId: string, action: string)
    | Direction(direction: string)
    | Uber
    | Media(action: string)
    | DoorUnlock
    | PhoneUnlock
    | Unmapped

  /** The one outbound request an action makes, or why it makes none. */
  datatype Effect =
    | HuePut(url: string, on: bool)
    | HomeAssistantPost(url: string, bearer: string, entityId: string)
    | UberPost(url: string, bearer: string)
    | PhonePost(url: string)
    | Simulated
    | NoRequest
    | ActionFailed

  const GESTURES: seq<string> := ["point_up", "point_down", "point_left", "point_right",
    "fist_close", "swipe_left", "swipe_right", "twist_cw", "pinch"]

  const UBER_REQUEST_URL: string := "https://api.uber.com/v1.2/requests"
  const PHONE_WEBHOOK: string := "http://192.168.1.50:8765/unlock"
  const SPOTIFY_ENTITY: string := "media_player.spotify"
  const FRONT_DOOR_ENTITY: string := "lock.front_door"

  /** The dispatch chain of handle_gesture; anything else, a missing name included, maps to nothing. */
  function Route(gesture: Option<string>): (cmd: Command)
  {
    if gesture == Some("point_up") then Light("ceiling_light", "on")
    else if gesture == Some("point_down") then Light("ceiling_light", "off")
    else if gesture == Some("point_left") then Direction("left")
    else if gesture == Some("point_right") then Direction("right")
    else if gesture == Some("fist_close") then Uber
    else if gesture == Some("swipe_left") then Media("previous")
    else if gesture == Some("swipe_right") then Media("next")
    else if gesture == Some("twist_cw") then DoorUnlock
    else if gesture == Some("pinch") then PhoneUnlock
    else Unmapped
  }

  /** The nine gesture names and the action each selects. */
  lemma GestureTable()
    ensures Route(Some("point_up")) == Light("ceiling_light", "on")
    ensures Route(Some("point_down")) == Light("ceiling_light", "off")
    ensures Route(Some("point_left")) == Direction("left")
    ensures Route(Some("point_right")) == Direction("right")
    ensures Route(Some("fist_close")) == Uber
    ensures Route(Some("swipe_left")) == Media("previous")
    ensures Route(Some("swipe_right")) == Media("next")
    ensures Route(Some("twist_cw")) == DoorUnlock
    ensures Route(Some("pinch")) == PhoneUnlock
    ensures Route(None) == Unmapped
  {
  }

  /** Exactly the nine known names select an action. */
  lemma RouteMapsExactlyKnownGestures(gesture: Option<string>)
    ensures Route(gesture) != Unmapped <==> gesture.Some? && gesture.value in GESTURES
  {
  }

  /** No two gesture names select the same action. */
  lemma RouteInjective(g1: Option<string>, g2: Option<string>)
    ensures Route(g1) == Route(g2) && Route(g1) != Unmapped ==> g1 == g2
  {
  }

  // ---------------------------------------------------------------------
  // Lookup tables
  // ---------------------------------------------------------------------

  const DEVICE_MAP: map<string, string> :=
    map["left" := "lamp_1", "right" := "lamp_2", "up" := "ceiling_fan", "down" := "floor_lamp"]

  const SERVICE_MAP: map<string, string> := map[
    "play" := "media_player.media_play",
    "pause" := "media_player.media_pause",
    "next" := "media_player.media_next_track",
    "previous" := "media_player.media_previous_track"]

  /** device_map.get(direction) */
  function DeviceFor(direction: string): (device: Option<string>)
    ensures device.Some? <==> direction in DEVICE_MAP
  {
    if direction in DEVICE_MAP then Some(DEVICE_MAP[direction]) else None
  }

  /** service_map.get(action) */
  function MediaService(action: string): (service: Option<string>)
    ensures service.Some? <==> action in SERVICE_MAP
  {
    if action in SERVICE_MAP then Some(SERVICE_MAP[action]) else None
  }

  /** The four directions and their devices; any other direction finds none. */
  lemma DeviceTable(direction: string)
    ensures DeviceFor("left") == Some("lamp_1") && DeviceFor("right") == Some("lamp_2")
    ensures DeviceFor("up") == Some("ceiling_fan") && DeviceFor("down") == Some("floor_lamp")
    ensures DeviceFor(direction).Some? <==> direction in ["left", "right", "up", "down"]
  {
  }

  /** The four media actions and their services; any other action finds none. */
  lemma MediaTable(action: string)
    ensures MediaService("play") == Some("media_player.media_play")
    ensures MediaService("pause") == Some("media_player.media_pause")
    ensures MediaService("next") == Some("media_player.media_next_track")
    ensures MediaService("previous") == Some("media_player.media_previous_track")
    ensures MediaService(action).Some? <==> action in ["play", "pause", "next", "previous"]
  {
  }

  // ---------------------------------------------------------------------
  // URLs
  // ---------------------------------------------------------------------

  /** s.replace(a, b) for single characters: every a becomes b, every other character stays. */
  function Replace(s: string, a: char, b: char): (r: string)
    ensures |r| == |s|
    ensures forall i :: 0 <= i < |s| ==> r[i] == (if s[i] == a then b else s[i])
  {
    if s == [] then [] else Replace(s[..|s| - 1], a, b) + [if s[|s| - 1] == a then b else s[|s| - 1]]
  }

  /** service.replace('.', '/') */
  function ReplaceDots(s: string): string
  {
    Replace(s, '.', '/')
  }

  /** The inverse direction, slash to dot. */
  function RestoreDots(s: string): string
  {
    Replace(s, '/', '.')
  }

  /** No dot survives the replacement. */
  lemma ReplaceDotsLeavesNoDot(s: string)
    ensures '.' !in ReplaceDots(s)
  {
    var r := ReplaceDots(s);
    forall i | 0 <= i < |r| ensures r[i] != '.' {
    }
  }

  /** A service name without slashes is recovered from its URL path: the replacement loses nothing. */
  lemma ReplaceDotsRoundTrip(s: string)
    requires '/' !in s
    ensures RestoreDots(ReplaceDots(s)) == s
  {
    var r := RestoreDots(ReplaceDots(s));
    forall i | 0 <= i < |s| ensures r[i] == s[i] {
      assert s[i] != '/';
    }
  }

  /** f"{home_assistant_url}/api/services/{service.replace('.', '/')}" */
  function HomeAssistantUrl(base: string, service: string): string
  {
    base + "/api/services/" + ReplaceDots(service)
  }

  /**
   * The URL is the base, then /api/services/, then the service with its dots
   * turned into slashes, so distinct slash-free service names give distinct URLs.
   */
  lemma HomeAssistantUrlShape(base: string, service: string, other: string)
    ensures var url := HomeAssistantUrl(base, service);
      && url[..|base|] == base
      && url[|base|..|base| + 14] == "/api/services/"
      && url[|base| + 14..] == ReplaceDots(service)
      && '.' !in url[|base| + 14..]
    ensures '/' !in service && '/' !in other && HomeAssistantUrl(base, service) == HomeAssistantUrl(base, other)
      ==> service == other
  {
    var url := HomeAssistantUrl(base, service);
    assert url[|base| + 14..] == ReplaceDots(service);
    ReplaceDotsLeavesNoDot(service);
    if '/' !in service && '/' !in other && url == HomeAssistantUrl(base, other) {
      assert HomeAssistantUrl(base, other)[|base| + 14..] == ReplaceDots(other);
      ReplaceDotsRoundTrip(service);
      ReplaceDotsRoundTrip(other);
    }
  }

  /** A name without dots is left as it is. */
  lemma ReplaceDotsKeepsDotFree(s: string)
    requires '.' !in s
    ensures ReplaceDots(s) == s
  {
    var r := ReplaceDots(s);
    forall i | 0 <= i < |s| ensures r[i] == s[i] {
      assert s[i] != '.';
    }
  }

  /** A dotted service name domain.service becomes the path domain/service. */
  lemma ReplaceDotsSplit(domain: string, service: string)
    requires '.' !in domain && '.' !in service
    ensures ReplaceDots(domain + "." + service) == domain + "/" + service
  {
    var s, t := domain + "." + service, domain + "/" + service;
    var r := ReplaceDots(s);
    forall i | 0 <= i < |s| ensures r[i] == t[i] {
      if i < |domain| {
        assert s[i] == domain[i] && t[i] == domain[i];
      } else if i > |domain| {
        assert s[i] == service[i - |domain| - 1] && t[i] == service[i - |domain| - 1];
      }
    }
  }

  /** A service <domain>.<name> is posted to the path <domain>/<name>. */
  lemma DottedServiceUrl(base: string, domain: string, name: string)
    requires '.' !in domain && '.' !in name
    ensures HomeAssistantUrl(base, domain + "." + name) == base + "/api/services/" + (domain + "/" + name)
  {
    ReplaceDotsSplit(domain, name);
  }

  /** The light services of the dispatch: light.turn_on and light.turn_off become the paths light/turn_on and light/turn_off. */
  lemma LightServiceUrls(base: string)
    ensures HomeAssistantUrl(base, "light.turn_on") == base + "/api/services/light/turn_on"
    ensures HomeAssistantUrl(base, "light.turn_off") == base + "/api/services/light/turn_off"
  {
    assert "light.turn_on" == "light" + "." + "turn_on";
    assert "light.turn_off" == "light" + "." + "turn_off";
    DottedServiceUrl(base, "light", "turn_on");
    DottedServiceUrl(base, "light", "turn_off");
    assert base + "/api/services/" + ("light" + "/" + "turn_on") == base + "/api/services/light/turn_on";
    assert base + "/api/services/" + ("light" + "/" + "turn_off") == base + "/api/services/light/turn_off";
  }

  /** f"http://{hue_bridge}/api/{hue_token}/lights/1/state" */
  function HueUrl(bridge: string, token: string): string
  {
    "http://" + bridge + "/api/" + token + "/lights/1/state"
  }

  // ---------------------------------------------------------------------
  // Actions
  // ---------------------------------------------------------------------

  /**
   * call_home_assistant_service: a POST to the service URL with the entity.
   * Both configuration entries are read with [], so an absent key raises and
   * the dispatch's handler reports the action as failed.
   */
  function HomeAssistantService(config: Config, service: string, entityId: string): (e: Effect)
    ensures e.HomeAssistantPost? || e.ActionFailed?
    ensures e.HomeAssistantPost? <==> config.homeAssistantUrl.Some? && config.homeAssistantToken.Some?
    ensures e.HomeAssistantPost? ==>
      e.url == HomeAssistantUrl(config.homeAssistantUrl.value, service)
      && e.bearer == config.homeAssistantToken.value && e.entityId == entityId
  {
    match (config.homeAssistantUrl, config.homeAssistantToken)
    case (Some(base), Some(token)) => HomeAssistantPost(HomeAssistantUrl(base, service), token, entityId)
    case _ => ActionFailed
  }

  /** control_light: Hue when bridge and token are set, else Home Assistant when its URL is set, else simulated. */
  function ControlLight(config: Config, lightId: string, action: string): (e: Effect)
  {
    if IsSet(config.hueBridge) && IsSet(config.hueToken) then
      HuePut(HueUrl(config.hueBridge.value, config.hueToken.value), action == "on")
    else if IsSet(config.homeAssistantUrl) then
      HomeAssistantService(config, if action == "on" then "light.turn_on" else "light.turn_off", "light." + lightId)
    else
      Simulated
  }

  /**
   * The branch control_light takes: Hue with payload on == (action == "on")
   * whenever both Hue entries are set; otherwise Home Assistant's
   * light.turn_on exactly when action is "on" and light.turn_off for every
   * other action, on entity light.<id>; otherwise simulation.
   */
  lemma ControlLightBranches(config: Config, lightId: string, action: string)
    ensures var e := ControlLight(config, lightId, action);
      && (e.HuePut? <==> IsSet(config.hueBridge) && IsSet(config.hueToken))
      && (e.HuePut? ==> e.on == (action == "on"))
      && (e.HuePut? ==> e.url == HueUrl(config.hueBridge.value, config.hueToken.value))
      && (e.HomeAssistantPost? ==> !IsSet(config.hueBridge) || !IsSet(config.hueToken))
      && (e.HomeAssistantPost? ==> e.entityId == "light." + lightId)
      && (e.HomeAssistantPost? ==>
            e.url == config.homeAssistantUrl.value + "/api/services/light/" + (if action == "on" then "turn_on" else "turn_off"))
      && (e.Simulated? <==> !(IsSet(config.hueBridge) && IsSet(config.hueToken)) && !IsSet(config.homeAssistantUrl))
      && (!(IsSet(config.hueBridge) && IsSet(config.hueToken)) && IsSet(config.homeAssistantUrl) ==>
            e == HomeAssistantService(config, if action == "on" then "light.turn_on" else "light.turn_off", "light." + lightId))
  {
    var e := ControlLight(config, lightId, action);
    if e.HomeAssistantPost? {
      LightActionUrl(config.homeAssistantUrl.value, action);
    }
  }

  /** The service URL control_light posts to for an action. */
  lemma LightActionUrl(base: string, action: string)
    ensures HomeAssistantUrl(base, if action == "on" then "light.turn_on" else "light.turn_off")
      == base + "/api/services/light/" + (if action == "on" then "turn_on" else "turn_off")
  {
    LightServiceUrls(base);
    if action == "on" {
      assert base + "/api/services/light/turn_on" == base + "/api/services/light/" + "turn_on";
    } else {
      assert base + "/api/services/light/turn_off" == base + "/api/services/light/" + "turn_off";
    }
  }

  /** "on" and "off" make different requests unless no request is made at all. */
  lemma LightOnOffDiffer(config: Config, lightId: string)
    ensures ControlLight(config, lightId, "on") == ControlLight(config, lightId, "off")
      <==> ControlLight(config, lightId, "on").Simulated? || ControlLight(config, lightId, "on").ActionFailed?
  {
    if ControlLight(config, lightId, "on").HomeAssistantPost? {
      var base := config.homeAssistantUrl.value;
      LightServiceUrls(base);
      assert |HomeAssistantUrl(base, "light.turn_on")| != |HomeAssistantUrl(base, "light.turn_off")|;
    }
  }

  /** toggle_device: homeassistant.toggle on the device when Home Assistant is set, else simulated. */
  function ToggleDevice(config: Config, deviceId: string): (e: Effect)
  {
    if IsSet(config.homeAssistantUrl) then HomeAssistantService(config, "homeassistant.toggle", deviceId)
    else Simulated
  }

  /** control_device_in_direction: toggle the mapped device; a direction outside the map toggles nothing. */
  function ControlDeviceInDirection(config: Config, direction: string): (e: Effect)
  {
    match DeviceFor(direction)
    case Some(device) => if device != "" then ToggleDevice(config, device) else NoRequest
    case None => NoRequest
  }

  /** call_uber: the ride request when an API key is set, else simulated. */
  function CallUber(config: Config): (e: Effect)
  {
    if IsSet(config.uberApiKey) then UberPost(UBER_REQUEST_URL, config.uberApiKey.value) else Simulated
  }

  /** unlock_door: lock.unlock on the front door when Home Assistant is set, else simulated. */
  function UnlockDoor(config: Config): (e: Effect)
  {
    if IsSet(config.homeAssistantUrl) then HomeAssistantService(config, "lock.unlock", FRONT_DOOR_ENTITY)
    else Simulated
  }

  /** media_control: the mapped media_player service on Spotify; an unmapped action calls nothing. */
  function MediaControl(config: Config, action: string): (e: Effect)
  {
    if IsSet(config.homeAssistantUrl) then
      match MediaService(action)
      case Some(service) => if service != "" then HomeAssistantService(config, service, SPOTIFY_ENTITY) else NoRequest
      case None => NoRequest
    else
      Simulated
  }

  /**
   * The two table-driven actions: a direction in device_map toggles its
   * device and any other direction makes no request; with Home Assistant set,
   * an action in service_map calls its service on Spotify and any other
   * action calls nothing; without it, media control is simulated.
   */
  lemma LookupActions(config: Config, direction: string, action: string)
    ensures direction !in DEVICE_MAP ==> ControlDeviceInDirection(config, direction) == NoRequest
    ensures direction in DEVICE_MAP ==>
      ControlDeviceInDirection(config, direction) == ToggleDevice(config, DEVICE_MAP[direction])
    ensures IsSet(config.homeAssistantUrl) && action !in SERVICE_MAP ==> MediaControl(config, action) == NoRequest
    ensures IsSet(config.homeAssistantUrl) && action in SERVICE_MAP ==>
      MediaControl(config, action) == HomeAssistantService(config, SERVICE_MAP[action], SPOTIFY_ENTITY)
    ensures !IsSet(config.homeAssistantUrl) ==> MediaControl(config, action) == Simulated
  {
    DeviceTable(direction);
    MediaTable(action);
  }

  /** The request the selected command makes. */
  function Perform(config: Config, cmd: Command): (e: Effect)
  {
    match cmd
    case Light(lightId, action) => ControlLight(config, lightId, action)
    case Direction(direction) => ControlDeviceInDirection(config, direction)
    case Uber => CallUber(config)
    case Media(action) => MediaControl(config, action)
    case DoorUnlock => UnlockDoor(config)
    case PhoneUnlock => PhonePost(PHONE_WEBHOOK)
    case Unmapped => NoRequest
  }

  /**
   * Pointing left or right toggles lamp_1 or lamp_2 through Home Assistant's
   * homeassistant.toggle service, or is simulated without Home Assistant.
   */
  lemma PointingToggles(config: Config, side: string)
    requires side == "left" || side == "right"
    ensures var e := Perform(config, Route(Some("point_" + side)));
      && (IsSet(config.homeAssistantUrl) ==> e == HomeAssistantService(config, "homeassistant.toggle",
            if side == "left" then "lamp_1" else "lamp_2"))
      && (!IsSet(config.homeAssistantUrl) ==> e == Simulated)
  {
    assert "point_" + side == if side == "left" then "point_left" else "point_right";
  }

  /**
   * Swiping always finds its service: with Home Assistant set, swipe_left calls
   * media_previous_track and swipe_right media_next_track on Spotify.
   */
  lemma SwipesSkipTracks(config: Config)
    requires IsSet(config.homeAssistantUrl)
    ensures Perform(config, Route(Some("swipe_left")))
      == HomeAssistantService(config, "media_player.media_previous_track", SPOTIFY_ENTITY)
    ensures Perform(config, Route(Some("swipe_right")))
      == HomeAssistantService(config, "media_player.media_next_track", SPOTIFY_ENTITY)
  {
    assert Route(Some("swipe_left")) == Media("previous");
    assert Route(Some("swipe_right")) == Media("next");
    LookupActions(config, "left", "previous");
    LookupActions(config, "left", "next");
  }

  /**
   * The other three actions: fist_close requests a ride with the API key as
   * bearer token when the key is set, and is simulated otherwise; twist_cw
   * unlocks lock.front_door through lock.unlock when Home Assistant is set,
   * and is simulated otherwise; pinch always posts to the phone's webhook.
   */
  lemma UberDoorPhoneActions(config: Config)
    ensures IsSet(config.uberApiKey) ==>
      Perform(config, Route(Some("fist_close"))) == UberPost(UBER_REQUEST_URL, config.uberApiKey.value)
    ensures !IsSet(config.uberApiKey) ==> Perform(config, Route(Some("fist_close"))) == Simulated
    ensures IsSet(config.homeAssistantUrl) ==>
      Perform(config, Route(Some("twist_cw"))) == HomeAssistantService(config, "lock.unlock", FRONT_DOOR_ENTITY)
    ensures !IsSet(config.homeAssistantUrl) ==> Perform(config, Route(Some("twist_cw"))) == Simulated
    ensures Perform(config, Route(Some("pinch"))) == PhonePost(PHONE_WEBHOOK)
  {
  }

  /** With the Home Assistant URL and token present, twist_cw posts lock.unlock for the front door. */
  lemma DoorUnlockRequest(config: Config)
    requires IsSet(config.homeAssistantUrl) && config.homeAssistantToken.Some?
    ensures Perform(config, Route(Some("twist_cw")))
      == HomeAssistantPost(config.homeAssistantUrl.value + "/api/services/lock/unlock",
                           config.homeAssistantToken.value, "lock.front_door")
  {
    UberDoorPhoneActions(config);
    var base := config.homeAssistantUrl.value;
    assert "lock.unlock" == "lock" + "." + "unlock";
    DottedServiceUrl(base, "lock", "unlock");
    assert base + "/api/services/" + ("lock" + "/" + "unlock") == base + "/api/services/lock/unlock";
  }

  /** An unknown gesture makes no request, whatever the configuration. */
  lemma UnmappedMakesNoRequest(config: Config, gesture: Option<string>)
    requires gesture.None? || gesture.value !in GESTURES
    ensures Perform(config, Route(gesture)) == NoRequest
  {
  }
}
