/**
 * A toolbar button described on the JavaScript side, and the decisions it
 * makes when the native toolbar asks for its icon.
 *
 * The Android collaborators are passed in as functions whose behaviour the
 * model does not fix: `parse` stands for `Uri.parse` (with `None` when it
 * throws), `resourceUri` and `lookup` for the resource helper's
 * `getResourceDrawableUri` and `getResourceDrawable`, and `fetch` for opening
 * a URL and decoding the image it serves. `None` from any of them stands for
 * `null` or for an exception, which the button swallows alike.
 */
module ButtonModel {
  import opened Wrappers

  /** The scheme that marks an icon as a bundled resource. */
  const LOCAL_RESOURCE_URI_SCHEME: string := "res"

  /** A parsed URI, reduced to what the button reads of it: its scheme (if any) and its text. */
  datatype Uri = Uri(scheme: Option<string>, text: string)

  /** A button: its string id (possibly missing), its title and its icon source. */
  datatype Button = Button(id: Option<string>, title: string, iconSource: Option<string>)

  /** Where the button's icon comes from. */
  datatype IconRoute =
    | NoIcon                       // no icon source, or no URI could be made of it
    | LocalResource(name: string)  // a bundled drawable, looked up by the icon source itself
    | RemoteFetch(uri: string)     // an image fetched from this URI

  /** Builds a button from the fields of its record; a missing title becomes the empty string. */
  function NewButton(id: Option<string>, title: Option<string>, icon: Option<string>): (b: Button)
    ensures b.id == id && b.iconSource == icon
    ensures title.None? ==> b.title == ""
    ensures title.Some? ==> b.title == title.value
  {
    Button(id, title.GetOr(""), icon)
  }

  /** Whether the button names an icon at all. */
  predicate HasIcon(b: Button): (r: bool)
    ensures r <==> b.iconSource != None
  {
    b.iconSource.Some?
  }

  /**
   * The URI of the icon: the parsed icon source when it names a scheme,
   * otherwise the URI the resource helper makes for the source as a resource
   * name. A scheme-less (relative) parse is never returned.
   */
  function IconUri(src: Option<string>, parse: string -> Option<Uri>, resourceUri: string -> Option<Uri>): (r: Option<Uri>)
    ensures src.None? ==> r.None?
    ensures r.Some? ==> (r == parse(src.value) && r.value.scheme.Some?) || r == resourceUri(src.value)
  {
    match src
    case None => None
    case Some(s) =>
      var parsed := parse(s);
      if parsed.Some? && parsed.value.scheme.Some? then parsed else resourceUri(s)
  }

  /**
   * Routes the icon: a URI whose scheme is `res` goes to the local resource
   * lookup under the original icon source; any other URI (also one without
   * a scheme) is fetched; no source or no URI yields no icon.
   */
  function Route(b: Button, parse: string -> Option<Uri>, resourceUri: string -> Option<Uri>): (r: IconRoute)
    ensures !HasIcon(b) ==> r == NoIcon
    ensures r.LocalResource? ==>
              && b.iconSource == Some(r.name)
              && IconUri(b.iconSource, parse, resourceUri).Some?
              && IconUri(b.iconSource, parse, resourceUri).value.scheme == Some(LOCAL_RESOURCE_URI_SCHEME)
    ensures r.RemoteFetch? ==>
              && HasIcon(b)
              && IconUri(b.iconSource, parse, resourceUri).Some?
              && IconUri(b.iconSource, parse, resourceUri).value.scheme != Some(LOCAL_RESOURCE_URI_SCHEME)
              && r.uri == IconUri(b.iconSource, parse, resourceUri).value.text
    ensures r.NoIcon? ==> !HasIcon(b) || IconUri(b.iconSource, parse, resourceUri).None?
  {
    match b.iconSource
    case None => NoIcon
    case Some(s) =>
      match IconUri(b.iconSource, parse, resourceUri)
      case None => NoIcon
      case Some(u) =>
        if u.scheme == Some(LOCAL_RESOURCE_URI_SCHEME) then LocalResource(s) else RemoteFetch(u.text)
  }

  /** The icon itself; every failure on the way gives `None`, never an error. */
  function GetIcon<D>(b: Button, parse: string -> Option<Uri>, resourceUri: string -> Option<Uri>,
                      lookup: string -> Option<D>, fetch: string -> Option<D>): (r: Option<D>)
    ensures r.Some? ==> HasIcon(b)
    ensures r.Some? <==> match Route(b, parse, resourceUri)
                         case NoIcon => false
                         case LocalResource(n) => lookup(n).Some?
                         case RemoteFetch(u) => fetch(u).Some?
    ensures Route(b, parse, resourceUri).LocalResource? ==> r == lookup(b.iconSource.value)
    ensures Route(b, parse, resourceUri).RemoteFetch? ==>
              r == fetch(IconUri(b.iconSource, parse, resourceUri).value.text)
  {
    match Route(b, parse, resourceUri)
    case NoIcon => None
    case LocalResource(name) => lookup(name)
    case RemoteFetch(uri) => fetch(uri)
  }

  /** A button without an icon source has no icon, and none of the collaborators matter. */
  lemma NoSourceNoIcon<D>(b: Button, parse: string -> Option<Uri>, resourceUri: string -> Option<Uri>,
                          lookup: string -> Option<D>, fetch: string -> Option<D>)
    ensures !HasIcon(b) ==> GetIcon(b, parse, resourceUri, lookup, fetch) == None
  {
  }

  /** A source that parses with a scheme is used as parsed. */
  lemma AbsoluteUriKept(s: string, parse: string -> Option<Uri>, resourceUri: string -> Option<Uri>)
    requires parse(s).Some? && parse(s).value.scheme.Some?
    ensures IconUri(Some(s), parse, resourceUri) == parse(s)
  {
  }

  /** A source that fails to parse, or parses without a scheme, is replaced by the helper's resource URI. */
  lemma RelativeUriFallsBack(s: string, parse: string -> Option<Uri>, resourceUri: string -> Option<Uri>)
    requires parse(s).None? || parse(s).value.scheme.None?
    ensures IconUri(Some(s), parse, resourceUri) == resourceUri(s)
  {
  }

  /** A `res` URI routes to the resource lookup by the whole icon source, not by the URI's path. */
  lemma ResSchemeRoutesLocal(b: Button, parse: string -> Option<Uri>, resourceUri: string -> Option<Uri>)
    requires HasIcon(b)
    requires IconUri(b.iconSource, parse, resourceUri).Some?
    requires IconUri(b.iconSource, parse, resourceUri).value.scheme == Some(LOCAL_RESOURCE_URI_SCHEME)
    ensures Route(b, parse, resourceUri) == LocalResource(b.iconSource.value)
  {
  }

  /** Any other final URI, with a scheme or without, routes to a remote fetch of its text. */
  lemma OtherSchemeRoutesRemote(b: Button, parse: string -> Option<Uri>, resourceUri: string -> Option<Uri>)
    requires HasIcon(b)
    requires IconUri(b.iconSource, parse, resourceUri).Some?
    requires IconUri(b.iconSource, parse, resourceUri).value.scheme != Some(LOCAL_RESOURCE_URI_SCHEME)
    ensures Route(b, parse, resourceUri) == RemoteFetch(IconUri(b.iconSource, parse, resourceUri).value.text)
  {
  }

  /** A failed fetch or lookup is absorbed: the button just has no icon. */
  lemma FailureIsNoIcon<D>(b: Button, parse: string -> Option<Uri>, resourceUri: string -> Option<Uri>,
                           lookup: string -> Option<D>, fetch: string -> Option<D>)
    requires forall s :: lookup(s) == None && fetch(s) == None
    ensures GetIcon(b, parse, resourceUri, lookup, fetch) == None
  {
  }

  /** The record `{id: "btn2", icon: "https://example.com/i.png"}`: empty title, fetched remotely. */
  lemma RemoteExample(parse: string -> Option<Uri>, resourceUri: string -> Option<Uri>)
    requires parse("https://example.com/i.png") == Some(Uri(Some("https"), "https://example.com/i.png"))
    ensures NewButton(Some("btn2"), None, Some("https://example.com/i.png")).title == ""
    ensures Route(NewButton(Some("btn2"), None, Some("https://example.com/i.png")), parse, resourceUri)
            == RemoteFetch("https://example.com/i.png")
  {
  }

  /** The record `{id: "btn3", icon: "ic_logo"}`: no scheme, so the helper's URI decides the route. */
  lemma BareNameExample(parse: string -> Option<Uri>, resourceUri: string -> Option<Uri>)
    requires parse("ic_logo").None? || parse("ic_logo").value.scheme.None?
    requires resourceUri("ic_logo") == Some(Uri(Some("res"), "res://ic_logo"))
    ensures Route(NewButton(Some("btn3"), None, Some("ic_logo")), parse, resourceUri) == LocalResource("ic_logo")
  {
  }
}
