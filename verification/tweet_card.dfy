/** The link card under a tweet's text (components/tweet/tweetText.tsx,
    `extractCardInfo`): the card's string bindings, its image, the url entity
    it belongs to and the link it opens. Image sizes are left out. */
module TweetCard {
  import opened Wrappers
  import opened Text
  import opened TweetTypes
  import PollInfo

  /** The image bindings tried in order; the first with a url is shown. */
  const ImageKeys: seq<string> := [
    "summary_photo_image_large", "summary_photo_image", "summary_photo_image_small",
    "photo_image_full_size_large", "photo_image_full_size", "photo_image_full_size_small",
    "thumbnail_image_large", "thumbnail_image",
    "photo_image_full_size_original", "summary_photo_image_original"]

  /** The alt text bindings tried in order. */
  const AltKeys: seq<string> := [
    "summary_photo_image_alt_text", "photo_image_full_size_alt_text", "thumbnail_image_alt_text"]

  datatype CardImage = CardImage(url: string, alt: Option<string>)

  datatype CardInfo = CardInfo(
    url: string,
    displayUrl: Option<string>,
    title: Option<string>,
    description: Option<string>,
    image: Option<CardImage>,
    kind: Option<string>,
    rawUrl: Option<string>)

  /** The outcome of reading a card. A record of bindings has no `length`
      and no `forEach`, so the program throws on it. */
  datatype Outcome = NoCard | Found(info: CardInfo) | Throws

  /** `getString`: the non-empty string value, else the non-empty scribe
      key; the numeric value is not consulted here. */
  function CardString(m: PollInfo.BindingMap, key: string): (r: Option<string>)
    ensures r.Some? ==> r.value != "" && key in m
    ensures r.Some? ==> r == m[key].stringValue || (!Truthy(m[key].stringValue) && r == m[key].scribeKey)
    ensures key in m && Truthy(m[key].stringValue) ==> r == m[key].stringValue
    ensures (key !in m || (!Truthy(m[key].stringValue) && !Truthy(m[key].scribeKey))) ==> r.None?
  {
    if key !in m then None
    else if Truthy(m[key].stringValue) then m[key].stringValue
    else if Truthy(m[key].scribeKey) then m[key].scribeKey
    else None
  }

  /** The first key whose string is present. */
  function FirstString(m: PollInfo.BindingMap, keys: seq<string>): (r: Option<string>)
    ensures r.Some? ==> exists i :: 0 <= i < |keys| && CardString(m, keys[i]) == r
                                    && forall j :: 0 <= j < i ==> CardString(m, keys[j]).None?
    ensures r.None? ==> forall i :: 0 <= i < |keys| ==> CardString(m, keys[i]).None?
  {
    if keys == [] then None
    else if CardString(m, keys[0]).Some? then CardString(m, keys[0])
    else
      var r := FirstString(m, keys[1..]);
      assert forall i :: 1 <= i < |keys| ==> keys[i] == keys[1..][i - 1];
      if r.Some? then
        var i :| 0 <= i < |keys[1..]| && CardString(m, keys[1..][i]) == r
                 && forall j :: 0 <= j < i ==> CardString(m, keys[1..][j]).None?;
        assert CardString(m, keys[i + 1]) == r;
        r
      else r
  }

  /** The url of the first image key bound to an image with a non-empty
      url. */
  function FirstImage(m: PollInfo.BindingMap, keys: seq<string>): (r: Option<string>)
    ensures r.Some? ==> r.value != ""
    ensures r.Some? ==> exists i :: 0 <= i < |keys| && keys[i] in m && m[keys[i]].imageUrl == r
                                    && forall j :: 0 <= j < i ==> keys[j] !in m || !Truthy(m[keys[j]].imageUrl)
    ensures r.None? ==> forall i :: 0 <= i < |keys| ==> keys[i] !in m || !Truthy(m[keys[i]].imageUrl)
    ensures |keys| > 0 && keys[0] in m && Truthy(m[keys[0]].imageUrl) ==> r == m[keys[0]].imageUrl
  {
    if keys == [] then None
    else if keys[0] in m && Truthy(m[keys[0]].imageUrl) then m[keys[0]].imageUrl
    else
      var r := FirstImage(m, keys[1..]);
      assert forall i :: 1 <= i < |keys| ==> keys[i] == keys[1..][i - 1];
      if r.Some? then
        var i :| 0 <= i < |keys[1..]| && keys[1..][i] in m && m[keys[1..][i]].imageUrl == r
                 && forall j :: 0 <= j < i ==> keys[1..][j] !in m || !Truthy(m[keys[1..][j]].imageUrl);
        assert keys[i + 1] in m && m[keys[i + 1]].imageUrl == r;
        r
      else r
  }

  /** Whether a url entity is the card's: any of its three urls equals the
      raw url, or its display url equals the vanity url when there is
      one. */
  predicate MatchesRaw(u: UrlEntity, raw: string, vanity: Option<string>) {
    u.url == Some(raw) || u.expandedUrl == Some(raw) || u.unwoundUrl == Some(raw)
    || (vanity.Some? && u.displayUrl == vanity)
  }

  /** `find`: the first url entity with the property. */
  function FindMatch(urls: seq<UrlEntity>, raw: Option<string>, vanity: Option<string>): (r: Option<UrlEntity>)
    ensures r.Some? ==> r.value in urls
    ensures r.Some? && Truthy(raw) ==> MatchesRaw(r.value, raw.value, vanity)
    ensures r.Some? && !Truthy(raw) ==> vanity.Some? && r.value.displayUrl == vanity
    ensures r.None? && Truthy(raw) ==> forall u :: u in urls ==> !MatchesRaw(u, raw.value, vanity)
  {
    if urls == [] then None
    else
      var u := urls[0];
      var hit := if Truthy(raw) then MatchesRaw(u, raw.value, vanity) else vanity.Some? && u.displayUrl == vanity;
      if hit then Some(u)
      else
        var r := FindMatch(urls[1..], raw, vanity);
        assert forall x :: x in urls ==> x == u || x in urls[1..];
        r
  }

  /** The entity the card belongs to: matched by raw url when there is one,
      else by the vanity url alone, else none. */
  function MatchedEntity(urls: seq<UrlEntity>, raw: Option<string>, vanity: Option<string>): (r: Option<UrlEntity>)
    ensures !Truthy(raw) && vanity.None? ==> r.None?
  {
    if Truthy(raw) || vanity.Some? then FindMatch(urls, raw, vanity) else None
  }

  /** A url as a link: kept when it starts with "http", else given
      "https://". */
  function AsLink(u: string): (r: string)
    ensures StartsWith(u, "http") ==> r == u
    ensures !StartsWith(u, "http") ==> r == "https://" + u
  {
    if StartsWith(u, "http") then u else "https://" + u
  }

  /** The link the card opens: the entity's expanded url, else its unwound
      url, then the raw url, the vanity url, the domain, each taken only
      when the earlier ones gave nothing non-empty. */
  function ResolveHref(matched: Option<UrlEntity>, raw: Option<string>, vanity: Option<string>, domain: Option<string>): (r: Option<string>)
    ensures var fromEntity := if matched.Some? then Or(matched.value.expandedUrl, matched.value.unwoundUrl) else None;
            (Truthy(fromEntity) ==> r == fromEntity)
            && (!Truthy(fromEntity) && Truthy(raw) ==> r == Some(AsLink(raw.value)))
            && (!Truthy(fromEntity) && !Truthy(raw) && Truthy(vanity) ==> r == Some(AsLink(vanity.value)))
            && (!Truthy(fromEntity) && !Truthy(raw) && !Truthy(vanity) && Truthy(domain) ==> r == Some("https://" + domain.value))
            && (r.None? <==> !Truthy(fromEntity) && !Truthy(raw) && !Truthy(vanity) && !Truthy(domain))
    ensures r.Some? ==> r.value != ""
  {
    var fromEntity := if matched.Some? then Or(matched.value.expandedUrl, matched.value.unwoundUrl) else None;
    if Truthy(fromEntity) then fromEntity
    else if Truthy(raw) then Some(AsLink(raw.value))
    else if Truthy(vanity) then Some(AsLink(vanity.value))
    else if Truthy(domain) then Some("https://" + domain.value)
    else None
  }

  /** The binding map of a card whose bindings are a list, else nothing:
      no legacy, no bindings, an empty list or a list with no usable entry
      all give no map. */
  function CardMap(t: Tweet): (r: Result<Option<PollInfo.BindingMap>>)
    ensures r.Ok? && r.value.Some? ==> |r.value.value| > 0
    ensures r.Err? <==> t.card.Some? && t.card.value.legacy.Some? && t.card.value.legacy.value.bindings.BindingRecord?
  {
    if t.card.None? || t.card.value.legacy.None? then Ok(None)
    else match t.card.value.legacy.value.bindings
      case NoBindings => Ok(None)
      case BindingRecord(_) => Err("TypeError")
      case BindingList(entries) =>
        var m := PollInfo.FromEntries(entries);
        if |entries| == 0 || |m| == 0 then Ok(None) else Ok(Some(m))
  }

  /** `extractCardInfo`. */
  function ExtractCardInfo(t: Tweet): (r: Outcome)
    ensures CardMap(t).Err? <==> r.Throws?
    ensures CardMap(t) == Ok(None) ==> r.NoCard?
    ensures r.Found? ==> r.info.url != ""
    ensures r.Found? ==> var m := CardMap(t).value.value;
              r.info.title == CardString(m, "title") && r.info.description == CardString(m, "description")
              && r.info.kind == t.card.value.legacy.value.name
              && (r.info.image.Some? <==> FirstImage(m, ImageKeys).Some?)
  {
    match CardMap(t)
    case Err(_) => Throws
    case Ok(None) => NoCard
    case Ok(Some(m)) =>
      var legacyCard := t.card.value.legacy.value;
      var raw := Or(CardString(m, "card_url"), legacyCard.url);
      var vanity := CardString(m, "vanity_url");
      var domain := CardString(m, "domain");
      var title := CardString(m, "title");
      var description := CardString(m, "description");
      var alt := FirstString(m, AltKeys);
      var image := match FirstImage(m, ImageKeys)
        case None => None
        case Some(u) => Some(CardImage(u, Or(alt, Or(description, title))));
      var urls := if t.legacy.Some? && t.legacy.value.entities.Some? then t.legacy.value.entities.value.urls.GetOr([]) else [];
      var matched := MatchedEntity(urls, raw, vanity);
      match ResolveHref(matched, raw, vanity, domain)
      case None => NoCard
      case Some(href) =>
        Found(CardInfo(href, Or(vanity, Or(if matched.Some? then matched.value.displayUrl else None, domain)),
                       title, description, image, legacyCard.name,
                       Or(if matched.Some? then matched.value.url else None, raw)))
  }

  /** A card whose `card_url` binding names a url entity of the tweet links
      to that entity's expanded url and reports the entity's own url. */
  lemma CardFollowsEntity(t: Tweet, m: PollInfo.BindingMap, raw: string, u: UrlEntity)
    requires CardMap(t) == Ok(Some(m))
    requires CardString(m, "card_url") == Some(raw)
    requires t.legacy.Some? && t.legacy.value.entities.Some? && t.legacy.value.entities.value.urls == Some([u])
    requires u.url == Some(raw) && Truthy(u.expandedUrl)
    ensures ExtractCardInfo(t).Found?
    ensures ExtractCardInfo(t).info.url == u.expandedUrl.value && ExtractCardInfo(t).info.rawUrl == Some(raw)
  {
    var vanity := CardString(m, "vanity_url");
    assert MatchesRaw(u, raw, vanity);
    assert MatchedEntity([u], Some(raw), vanity) == Some(u);
  }
}
