/** The app's local persistence (`AsyncStorage`) and the values kept in it: the user
    profile under the key "user", the session token under "token" and the paper library
    under "papers". The JSON text round trip of `setItem`/`getItem` is not modelled: an
    item is kept as the value that was serialized. */
module AppStorage {
  import opened Options

  /** A JavaScript value as it survives `JSON.stringify`/`JSON.parse`. Numbers are
      integers here; arrays and nested objects are not looked into. */
  datatype Json = JNull | JBool(b: bool) | JNum(n: int) | JStr(s: string) | JComposite

  /** A plain JavaScript object; an absent key is `undefined`. */
  type JsObject = map<string, Json>

  /** JavaScript truthiness: `null`, `false`, `0` and `""` are falsy. */
  predicate Truthy(v: Json)
  {
    match v
    case JNull => false
    case JBool(b) => b
    case JNum(n) => n != 0
    case JStr(s) => s != []
    case JComposite => true
  }

  /** `o.key || fallback`. */
  function FieldOr(o: JsObject, key: string, fallback: Json): Json
  {
    if key in o && Truthy(o[key]) then o[key] else fallback
  }

  /** A paper record of the library, as `AddPaperScreen` builds it. `tag`, `tagColor`,
      `pdfUrl` and `localUri` may be `null`. */
  datatype Paper = Paper(
    id: string, title: string, authors: string, source: string, year: string,
    pages: string, tag: Option<string>, tagColor: Option<string>, starred: bool,
    readStatus: string, pdfUrl: Option<string>, localUri: Option<string>,
    collection: string, addedDate: string, doi: string, citationCount: int)

  /** What a key holds. */
  datatype Item = UserItem(user: JsObject) | TokenItem(token: string) | PapersItem(papers: seq<Paper>)

  const USER_KEY := "user"
  const TOKEN_KEY := "token"
  const PAPERS_KEY := "papers"

  /** `JSON.parse(await getItem('user'))` when the key is set, else `{}`. */
  function StoredUserOr(items: map<string, Item>, fallback: JsObject): JsObject
  {
    if USER_KEY in items && items[USER_KEY].UserItem? then items[USER_KEY].user else fallback
  }

  /** `JSON.parse(await getItem('papers'))` when the key is set, else `[]`. */
  function StoredPapers(items: map<string, Item>): seq<Paper>
  {
    if PAPERS_KEY in items && items[PAPERS_KEY].PapersItem? then items[PAPERS_KEY].papers else []
  }

  /** The device's key-value store, shared by every screen. */
  class KeyValueStore {
    var items: map<string, Item>

    constructor (items: map<string, Item>)
      ensures this.items == items
    {
      this.items := items;
    }

    /** `setItem(key, value)`: the key now holds the value; no other key changes. */
    method SetItem(key: string, value: Item)
      modifies this
      ensures items == old(items)[key := value]
    {
      items := items[key := value];
    }
  }
}
