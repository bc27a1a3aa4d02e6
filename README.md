# Toolbar button id interner and icon routing

A model of `Button`, the class of react-native-navigation's Android side that
turns a JavaScript-described toolbar button (`id`, `title`, `icon`) into what
the native toolbar needs: a numeric menu-item id and a drawable icon.

- `id_registry.dfy` (module `IdRegistry`) models the process-wide table that
  interns string button ids as integer menu-item ids. The table is the static
  `HashMap<String, Integer>` and its `AtomicInteger` counter. `Registry` is a
  class with the table as a `map<Option<string>, int>` field and the counter as
  an `int` field. `GetItemId` inserts if absent. `GetButtonEventId` scans the
  keys in no fixed order and returns the string id stored under an integer, or
  `None` (Java `null`). Both methods are proved against the pure `Assign` and
  `Answers`. The lemmas about those show what the table guarantees: ids stay
  in `1..counter`, the table stays injective, no id is skipped, an assigned id
  never changes, assignment is idempotent, and a reverse lookup returns the
  id that was just interned.
- The counter is a Java `int`. Its increment wraps in two's complement
  (`Wrap32`), so the invariant holds for up to 2^31-1 distinct interned ids and is
  lost only at the next unseen id. `AssignWrapsAtIntMax` shows what happens at that limit.
- `button.dfy` (module `ButtonModel`) models the button record, its default
  title and `hasIcon`. It also models how `getIcon`/`getIconUri` decide where
  an icon comes from. The Android collaborators are function parameters whose
  behaviour the model leaves open: `Uri.parse`, the resource helper's URI and
  drawable lookups, and the URL fetch with image decode. `None` from any of
  them stands for `null` or for a thrown exception. The button swallows both
  the same way.
- `wrappers.dfy` holds the `Option` type.

## Model

| member | source | states |
|---|---|---|
| `IdRegistry.Wrap32` | android/app/src/main/java/com/reactnativenavigation/core/objects/Button.java:100 | the counter increment stays in the Java `int` range, is the identity inside it and differs from the exact sum by a multiple of 2^32 |
| `IdRegistry.Assign` | android/app/src/main/java/com/reactnativenavigation/core/objects/Button.java:95-103 | afterwards the id is stored under the returned integer, the key set grows by exactly that id, existing entries keep their values, a known id changes nothing, and an unseen id takes the incremented counter |
| `IdRegistry.AssignPreservesValid` | android/app/src/main/java/com/reactnativenavigation/core/objects/Button.java:95-103 | while the counter has room, interning keeps every stored integer in `1..counter` and keeps distinct string ids on distinct integers |
| `IdRegistry.AssignPreservesDense` | android/app/src/main/java/com/reactnativenavigation/core/objects/Button.java:100-102 | interning never skips a counter value: every integer in `1..counter` belongs to some string id |
| `IdRegistry.AssignIdempotent` | android/app/src/main/java/com/reactnativenavigation/core/objects/Button.java:96-98 | interning the same id a second time returns the same integer and leaves table and counter unchanged |
| `IdRegistry.AssignStable` | android/app/src/main/java/com/reactnativenavigation/core/objects/Button.java:96-102 | an assigned id keeps its entry and its value whatever id is interned next, so the table never shrinks |
| `IdRegistry.AnswerUnique` | android/app/src/main/java/com/reactnativenavigation/core/objects/Button.java:111-116 | in an injective table the reverse lookup has exactly one correct answer, whatever order the scan visits the entries in |
| `IdRegistry.RoundTrip` | android/app/src/main/java/com/reactnativenavigation/core/objects/Button.java:95-119 | the reverse lookup of the integer just returned for a string id gives back that string id, also for the id that makes the counter wrap |
| `IdRegistry.UnassignedAnswersNone` | android/app/src/main/java/com/reactnativenavigation/core/objects/Button.java:111-119 | the reverse lookup of an integer outside `1..counter` is `null` |
| `IdRegistry.AssignWrapsAtIntMax` | android/app/src/main/java/com/reactnativenavigation/core/objects/Button.java:100 | at the largest Java `int` the next unseen id gets `Integer.MIN_VALUE`, and the bound `1..counter` is lost |
| `IdRegistry.AssignAllSound` | android/app/src/main/java/com/reactnativenavigation/core/objects/Button.java:95-103 | interning a sequence of ids, of any length, keeps the invariant and density, keeps earlier entries, and every integer returned is the one finally stored for its id, as long as the counter has room for the distinct new ids (repeats and known ids use none) |
| `IdRegistry.InternIsInjective` | android/app/src/main/java/com/reactnativenavigation/core/objects/Button.java:38-39 | starting from the empty registry, two requests get the same integer exactly when they carry the same string id, for any number of calls with at most 2^31-1 distinct ids |
| `IdRegistry.Registry.constructor` | android/app/src/main/java/com/reactnativenavigation/core/objects/Button.java:38-39 | the registry starts with an empty table and a counter at zero, which satisfies the invariant |
| `IdRegistry.Registry.GetItemId` | android/app/src/main/java/com/reactnativenavigation/core/objects/Button.java:95-103 | the new table and counter are those of `Assign`: a cached id is returned with nothing changed; otherwise the counter goes up by one and is returned, and exactly that one entry is added; the invariant is kept |
| `IdRegistry.Registry.GetButtonEventId` | android/app/src/main/java/com/reactnativenavigation/core/objects/Button.java:111-119 | returns a string id stored under the integer when there is one, the only one in a valid registry, and `null` otherwise; changes nothing |
| `ButtonModel.NewButton` | android/app/src/main/java/com/reactnativenavigation/core/objects/Button.java:41-45 | the id and the icon source are kept as given, possibly missing; a missing title becomes `""` |
| `ButtonModel.HasIcon` | android/app/src/main/java/com/reactnativenavigation/core/objects/Button.java:47-49 | true exactly when the icon source is present |
| `ButtonModel.NoSourceNoIcon` | android/app/src/main/java/com/reactnativenavigation/core/objects/Button.java:47-54 | without an icon source the icon is `null`, whatever the collaborators would do |
| `ButtonModel.IconUri` | android/app/src/main/java/com/reactnativenavigation/core/objects/Button.java:76-93 | no source gives no URI; a URI returned is either the parse result with a scheme or the helper's resource URI, never a scheme-less parse |
| `ButtonModel.AbsoluteUriKept` | android/app/src/main/java/com/reactnativenavigation/core/objects/Button.java:79-84 | a source that parses with a scheme is used as parsed |
| `ButtonModel.RelativeUriFallsBack` | android/app/src/main/java/com/reactnativenavigation/core/objects/Button.java:79-90 | a source that fails to parse or has no scheme is replaced by the helper's resource URI |
| `ButtonModel.Route` | android/app/src/main/java/com/reactnativenavigation/core/objects/Button.java:51-66 | no source or no URI gives no icon; a local lookup happens only for a `res` URI and uses the original icon source as the name; a fetch happens only for a URI whose scheme is not `res`, and it fetches that URI's text |
| `ButtonModel.ResSchemeRoutesLocal` | android/app/src/main/java/com/reactnativenavigation/core/objects/Button.java:60-61 | a final URI with scheme `res` routes to the resource lookup by the full icon source |
| `ButtonModel.OtherSchemeRoutesRemote` | android/app/src/main/java/com/reactnativenavigation/core/objects/Button.java:62-65 | any other final URI, including one without a scheme, routes to a remote fetch of its text |
| `ButtonModel.GetIcon` | android/app/src/main/java/com/reactnativenavigation/core/objects/Button.java:51-74 | an icon is returned only when the button has an icon source, and exactly when the routed lookup or fetch succeeds; a `res` route returns the drawable looked up under the icon source, any other route the image fetched from the URI's text |
| `ButtonModel.FailureIsNoIcon` | android/app/src/main/java/com/reactnativenavigation/core/objects/Button.java:68-73 | when every lookup and fetch fails, the result is `null` and not an error |
| `ButtonModel.RemoteExample` | android/app/src/main/java/com/reactnativenavigation/core/objects/Button.java:41-66 | `{id: "btn2", icon: "https://example.com/i.png"}` gets the empty title and is fetched remotely |
| `ButtonModel.BareNameExample` | android/app/src/main/java/com/reactnativenavigation/core/objects/Button.java:76-93 | `{id: "btn3", icon: "ic_logo"}` has no scheme, so the helper's `res` URI routes it to the resource lookup of `ic_logo` |

## Left out

- Image loading itself (`URL.openStream`, `BitmapFactory.decodeStream`, `BitmapDrawable`) is network I/O and platform graphics. It is the `fetch` parameter. When `decodeStream` returns `null` instead of throwing, the Java code still returns a `BitmapDrawable` that wraps no bitmap. The model counts that as whatever `fetch` returns.
- `Uri.parse` and `ResourceDrawableIdHelper` are Android and library code that is not part of this model. They appear as the `parse`, `resourceUri` and `lookup` parameters, with unspecified behaviour.
- The `Context` argument is not modelled. It only reaches the resource helper, which is a parameter here.
- Exception handling and `BuildConfig.DEBUG` stack-trace logging are not modelled. A thrown exception is modelled only as the `None`/`null` outcome it leads to.
- Reading the `ReadableMap` record (`JsonObject.getString`) is not modelled, because the superclass is not part of this model. `NewButton` takes the three optional fields directly.
- Concurrency is not modelled. The registry is sequential, so two threads both passing the unsynchronised check-then-put on the `HashMap` are not captured, and neither is the atomicity of `AtomicInteger`.
- `Serializable` and `serialVersionUID` are not modelled.
- `MenuItem` is reduced to its integer id.
- IdRegistry.Registry.GetItemId: the invariant is promised only while the counter is below `Integer.MAX_VALUE`. After 2^31-1 distinct ids have been interned, the next unseen id makes the counter wrap to `Integer.MIN_VALUE` (shown by `AssignWrapsAtIntMax`), and from then on the model states only the state update.
