/** The favorites list of the "Favorite" screen (components/FavoritesScreen.tsx):
    how `fetchFavorites` finds the user id and turns the server's answer into the
    list, and how `handleRemoveFavorite` drops a favorite after a successful DELETE. */
module Favorites {
  import opened Common

  /** A favorite as the server returns it: its own id and the hotel fields copied into it. */
  datatype Favorite = Favorite(id: int, hotelId: string, title: string, city: string, img: string, rating: string)

  /** The result of one `AsyncStorage.getItem`: no entry (`null`), the stored text,
      or a rejected read. */
  datatype Item = Missing | Stored(text: string) | ReadFailed

  /** JavaScript truthiness of a read value: stored and not the empty string. */
  predicate TruthyItem(item: Item) {
    item.Stored? && item.text != ""
  }

  /** What `JSON.parse(userStr)` followed by `user.id?.toString()` yields: a parse
      error, `null` (whose `.id` throws), or any other value, with `id` the text of its
      `id` property when it has one; a number, string, boolean or array parses to a
      value without an `id` property, so it is `UserObject(None)` and does not throw. */
  datatype ParsedUser = Unparseable | NullUser | UserObject(id: Option<string>)

  /** Where the uid fallback chain ends: a truthy uid, no uid, or an exception. */
  datatype Uid = Resolved(uid: string) | NoUid | Threw

  /** The uid `fetchFavorites` requests favorites for: the stored "userId" when it is
      truthy, otherwise the `id` of the stored "user" object. */
  function ResolveUid(userIdItem: Item, userItem: Item, parse: string -> ParsedUser): (r: Uid)
    // a resolved uid is never falsy
    ensures r.Resolved? ==> r.uid != ""
    // the stored "userId" wins whenever it is truthy
    ensures TruthyItem(userIdItem) ==> r == Resolved(userIdItem.text)
    // otherwise the uid comes from the stored "user" object, or there is none
    ensures !TruthyItem(userIdItem) && !userIdItem.ReadFailed? ==>
              (r.Resolved? <==> TruthyItem(userItem) && parse(userItem.text).UserObject? &&
                                parse(userItem.text).id.Some? && parse(userItem.text).id.value != "")
    ensures !TruthyItem(userIdItem) && r.Resolved? ==> userItem.Stored? && parse(userItem.text) == UserObject(Some(r.uid))
    // an exception comes from a failed read, or from a stored "user" that is not valid JSON or is `null`
    ensures r == Threw <==>
              || userIdItem.ReadFailed?
              || (!TruthyItem(userIdItem) &&
                  (|| userItem.ReadFailed?
                   || (TruthyItem(userItem) && !parse(userItem.text).UserObject?)))
  {
    if userIdItem.ReadFailed? then Threw
    else if TruthyItem(userIdItem) then Resolved(userIdItem.text)
    else if userItem.ReadFailed? then Threw
    else if !TruthyItem(userItem) then NoUid
    else match parse(userItem.text)
      case Unparseable => Threw
      case NullUser => Threw
      case UserObject(id) => if id.Some? && id.value != "" then Resolved(id.value) else NoUid
  }

  /** The parsed JSON body of a response: malformed (`response.json()` rejects), `null`, or a list. */
  datatype JsonBody = Malformed | Null | List(items: seq<Favorite>)

  /** How the GET for the favorites ended: a response, or a rejected `fetch`. */
  datatype FavoritesResponse = NetworkError | HttpResponse(ok: bool, body: JsonBody)

  /** The list a finished request leaves: the received list when the response is ok
      and its body is a list, the empty list on every other path. */
  function FetchedFavorites(response: FavoritesResponse): (favorites: seq<Favorite>)
    ensures response.NetworkError? || !response.ok ==> favorites == []
    ensures response.HttpResponse? && response.ok && response.body.List? ==> favorites == response.body.items
    ensures favorites != [] ==> response == HttpResponse(true, List(favorites))
  {
    match response
    case NetworkError => []
    case HttpResponse(ok, body) =>
      if !ok then []
      else match body
        case List(items) => items
        case _ => []
  }

  /** The favorites left after removing every favorite with id `favoriteId`. */
  function WithoutId(favorites: seq<Favorite>, favoriteId: int): (rest: seq<Favorite>)
    ensures IsSubsequence(rest, favorites)
    ensures forall k :: 0 <= k < |rest| ==> rest[k].id != favoriteId
    ensures forall k :: 0 <= k < |favorites| && favorites[k].id != favoriteId ==> favorites[k] in rest
    ensures forall f :: multiset(rest)[f] == if f.id != favoriteId then multiset(favorites)[f] else 0
  {
    Filter(favorites, (fav: Favorite) => fav.id != favoriteId)
  }

  /** Removing an id that no favorite has leaves the list as it was. */
  lemma RemoveAbsentUnchanged(favorites: seq<Favorite>, favoriteId: int)
    requires forall k :: 0 <= k < |favorites| ==> favorites[k].id != favoriteId
    ensures WithoutId(favorites, favoriteId) == favorites
  {
    FilterKeepsAll(favorites, (fav: Favorite) => fav.id != favoriteId);
  }

  /** Removing the same id twice is removing it once. */
  lemma RemoveIdempotent(favorites: seq<Favorite>, favoriteId: int)
    ensures WithoutId(WithoutId(favorites, favoriteId), favoriteId) == WithoutId(favorites, favoriteId)
  {
    RemoveAbsentUnchanged(WithoutId(favorites, favoriteId), favoriteId);
  }

  /** The state of the screen. */
  class FavoritesScreen {
    var favorites: seq<Favorite>
    var loading: bool
    var userId: Option<string>

    /** `useState` initial values. */
    constructor ()
      ensures favorites == [] && !loading && userId == None
    {
      favorites := [];
      loading := false;
      userId := None;
    }

    /** `fetchFavorites`. The storage reads, the JSON parse and the GET are inputs;
        `requested` is the uid the GET is issued for, None when no request is made. */
    method FetchFavorites(userIdItem: Item, userItem: Item, parse: string -> ParsedUser,
                          fetch: string -> FavoritesResponse) returns (requested: Option<string>)
      modifies this
      ensures !loading
      ensures var r := ResolveUid(userIdItem, userItem, parse);
              && requested == (if r.Resolved? then Some(r.uid) else None)
              && userId == (if r.Resolved? then Some(r.uid) else old(userId))
              && favorites == (if r.Resolved? then FetchedFavorites(fetch(r.uid)) else [])
    {
      loading := true;
      requested := None;
      var threw := false;
      var uid: Option<string> := None;
      // the stored "userId", else the id of the stored "user" object
      if userIdItem.ReadFailed? {
        threw := true;
      } else {
        uid := if userIdItem.Stored? then Some(userIdItem.text) else None;
        if uid.None? || uid.value == "" {
          if userItem.ReadFailed? {
            threw := true;
          } else if TruthyItem(userItem) {
            match parse(userItem.text) {
              case Unparseable => threw := true;
              case NullUser => threw := true;
              case UserObject(id) => uid := id;
            }
          }
        }
      }
      if threw {
        favorites := [];
      } else if uid.None? || uid.value == "" {
        favorites := [];
        loading := false;
      } else {
        userId := uid;
        requested := uid;
        var response := fetch(uid.value);
        if response.NetworkError? || !response.ok {
          favorites := [];
        } else {
          match response.body {
            case Malformed => favorites := [];
            case Null => favorites := [];
            case List(items) => favorites := items;
          }
        }
      }
      loading := false;
    }

    /** `handleRemoveFavorite`: the list changes only when the DELETE answered ok. */
    method RemoveFavorite(favoriteId: int, delete: HttpOutcome) returns (alert: Alert)
      modifies this
      ensures delete == Responded(true) ==> favorites == WithoutId(old(favorites), favoriteId)
      ensures delete != Responded(true) ==> favorites == old(favorites)
      ensures alert == match delete
                       case Responded(ok) =>
                         if ok then Alert("Success", "Removed from favorites")
                         else Alert("Error", "Failed to remove favorite")
                       case RequestFailed => Alert("Error", "Something went wrong")
      ensures loading == old(loading) && userId == old(userId)
    {
      match delete {
        case Responded(ok) =>
          if ok {
            favorites := WithoutId(favorites, favoriteId);
            alert := Alert("Success", "Removed from favorites");
          } else {
            alert := Alert("Error", "Failed to remove favorite");
          }
        case RequestFailed =>
          alert := Alert("Error", "Something went wrong");
      }
    }
  }
}
