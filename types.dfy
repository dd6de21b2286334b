/**
 * The record shapes the carousel and the image helpers read: a place and a
 * category of places. Only `title`, `places`, `name` and `imageUrl` are used by
 * the modelled code; the other fields are carried along unchanged.
 */
module Types {

  datatype Option<T> = None | Some(value: T)

  datatype Place = Place(
    name: string,
    description: string,
    fullDescription: string,
    nycConnectionText: string,
    mustTry: string,
    nycEquivalent: string,
    location: string,
    vibe: string,
    imageUrl: Option<string>)

  datatype Category = Category(
    id: string,
    title: string,
    places: seq<Place>,
    imageKeyword: string)
}
