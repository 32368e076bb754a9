/**
 Model of the feed item (`struct Video`): an immutable value whose identity,
 for both `==` and `hash(into:)`, is its `id` alone, plus the built-in feed
 `mockData` and the `firstIndex(where:)` lookup the player manager runs over
 the feed.
 */
module VideoModel {

  datatype Option<T> = None | Some(value: T)

  /** One feed item. The URL is kept as an opaque string. */
  datatype Video = Video(id: string, videoUrl: string, author: string, description: string, likes: int)

  /** Swift `==` on `Video`: only the ids are compared. As `Hashable` demands, equal videos feed
      the hasher the same input; here the converse holds as well. */
  predicate SameVideo(a: Video, b: Video): (r: bool)
    ensures r <==> HashInput(a) == HashInput(b)
  {
    a.id == b.id
  }

  /** The values `hash(into:)` hands to the hasher, in order. */
  function HashInput(v: Video): seq<string>
  {
    [v.id]
  }

  /** Two videos are equal exactly when their ids are, whatever else they carry. */
  lemma SameVideoIffSameId(id1: string, url1: string, author1: string, desc1: string, likes1: int,
                           id2: string, url2: string, author2: string, desc2: string, likes2: int)
    ensures SameVideo(Video(id1, url1, author1, desc1, likes1), Video(id2, url2, author2, desc2, likes2))
            <==> id1 == id2
  {
  }

  /** `==` is an equivalence relation. */
  lemma SameVideoIsEquivalence(a: Video, b: Video, c: Video)
    ensures SameVideo(a, a)
    ensures SameVideo(a, b) ==> SameVideo(b, a)
    ensures SameVideo(a, b) && SameVideo(b, c) ==> SameVideo(a, c)
  {
  }

  /** `videos.firstIndex(where: { $0.id == id })`: the first position holding `id`. */
  function FirstIndex(videos: seq<Video>, id: string): (r: Option<nat>)
    ensures r.Some? ==> r.value < |videos| && videos[r.value].id == id
    ensures forall j :: 0 <= j < |videos| && (r.None? || j < r.value) ==> videos[j].id != id
  {
    if |videos| == 0 then None
    else if videos[0].id == id then Some(0)
    else
      match FirstIndex(videos[1..], id)
      case None => None
      case Some(k) => Some(k + 1)
  }

  predicate DistinctIds(videos: seq<Video>)
  {
    forall i, j :: 0 <= i < j < |videos| ==> videos[i].id != videos[j].id
  }

  /** In a feed without repeated ids, looking up the id at position `k` finds `k`. */
  lemma FirstIndexOfDistinct(videos: seq<Video>, k: nat)
    requires DistinctIds(videos)
    requires k < |videos|
    ensures FirstIndex(videos, videos[k].id) == Some(k)
  {
  }

  /** The feed the app ships with. */
  const MockData: seq<Video> := [
    Video("1", "https://assets.mixkit.co/videos/48489/48489-720.mp4", "Jack Tan", "old town road", 2),
    Video("2", "https://assets.mixkit.co/videos/28331/28331-720.mp4", "Adventure seekers", "The world of adventure", 10),
    Video("3", "https://assets.mixkit.co/videos/49535/49535-720.mp4", "Mystic Vibes", "Spiritualist moving hands over flames", 45),
    Video("4", "https://assets.mixkit.co/videos/48488/48488-720.mp4", "Sky View", "Aerial footage of car on dirt road", 32),
    Video("5", "https://assets.mixkit.co/videos/8810/8810-720.mp4", "Study Hub", "Student studying for exam in library", 18),
    Video("6", "https://assets.mixkit.co/videos/9049/9049-720.mp4", "Campus Life", "Man focused on study in library", 7),
    Video("7", "https://assets.mixkit.co/videos/28317/28317-720.mp4", "School Days", "Young man studying in school corridors", 23),
    Video("8", "https://assets.mixkit.co/videos/28860/28860-720.mp4", "Slow Mo", "Glass shattering on the floor", 56),
    Video("9", "https://assets.mixkit.co/videos/15863/15863-720.mp4", "Quiet Moments", "Side view of man reading", 12),
    Video("10", "https://assets.mixkit.co/videos/47914/47914-720.mp4", "Drive Test", "Starting the car for a driving test", 29),
    Video("11", "https://assets.mixkit.co/videos/47783/47783-720.mp4", "Lab Works", "Scientist working with microscope", 41),
    Video("12", "https://assets.mixkit.co/videos/48490/48490-720.mp4", "Road Trip", "POV driving in light fog on curved road", 38)
  ]

  /** The ids of the built-in feed, in order. */
  const MockIds: seq<string> := ["1", "2", "3", "4", "5", "6", "7", "8", "9", "10", "11", "12"]

  /** `mockData` holds twelve videos with the pairwise-distinct ids "1" to "12". */
  lemma MockDataIds()
    ensures |MockData| == 12
    ensures forall k :: 0 <= k < 12 ==> MockData[k].id == MockIds[k]
    ensures DistinctIds(MockData)
  {
  }

  /** Every id lookup in the built-in feed finds the unique position of that id. */
  lemma MockDataLookupUnique(k: nat)
    requires k < |MockData|
    ensures FirstIndex(MockData, MockIds[k]) == Some(k)
  {
    MockDataIds();
    FirstIndexOfDistinct(MockData, k);
  }
}
