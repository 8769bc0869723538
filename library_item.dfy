/** One track of the catalog: the record LibraryItem. */
module LibraryItem {

  datatype Item = Item(
    trackId: string,
    name: string,
    artist: string,
    source: string,   // path of the audio file; it need not exist
    rating: int,      // 0 means unrated; nothing checks the range
    playCount: int)

  /**
   * The constructor: every argument is kept as given, without validation;
   * rating and play count default to 0 when left out.
   */
  function NewItem(trackId: string, name: string, artist: string, source: string,
                   rating: int := 0, playCount: int := 0): (r: Item)
    ensures r.trackId == trackId && r.name == name && r.artist == artist && r.source == source
    ensures r.rating == rating && r.playCount == playCount
  {
    Item(trackId, name, artist, source, rating, playCount)
  }
}
