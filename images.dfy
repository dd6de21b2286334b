/**
 * Image selection for categories and places: each category title has a
 * curated list of image addresses, a title without a list borrows the
 * "Views" list, and an index picks from the list cyclically. A place shows
 * its own image when it has a non-empty one, and otherwise a category image
 * chosen by the length of its name.
 */
module Images {
  import opened Types

  const ViewsTitle: string := "Views"

  /** The curated image lists, keyed by category title. */
  const CategoryImages: map<string, seq<string>> := map[
    "Eat" := [
      "https://raw.githubusercontent.com/marcelorm81/assets/f46698e60409ff4dcf2042dc86b31dcac5beff9c/eat.jpg"
    ],
    "Drink" := [
      "https://raw.githubusercontent.com/marcelorm81/assets/f46698e60409ff4dcf2042dc86b31dcac5beff9c/drink.jpg"
    ],
    "Dance" := [
      "https://images.unsplash.com/photo-1566737236500-c8ac43014a67?q=80&w=600&auto=format&fit=crop",
      "https://images.unsplash.com/photo-1545128485-c400e7702796?q=80&w=600&auto=format&fit=crop",
      "https://images.unsplash.com/photo-1516450360452-9312f5e86fc7?q=80&w=600&auto=format&fit=crop",
      "https://images.unsplash.com/photo-1574391884720-2bbc37e3ae8e?q=80&w=600&auto=format&fit=crop",
      "https://images.unsplash.com/photo-1492684223066-81342ee5ff30?q=80&w=600&auto=format&fit=crop"
    ],
    "Culture" := [
      "https://raw.githubusercontent.com/marcelorm81/assets/f46698e60409ff4dcf2042dc86b31dcac5beff9c/culture.jpg"
    ],
    "Shop" := [
      "https://raw.githubusercontent.com/marcelorm81/assets/f46698e60409ff4dcf2042dc86b31dcac5beff9c/shop.jpg"
    ],
    ViewsTitle := [
      "https://raw.githubusercontent.com/marcelorm81/assets/f46698e60409ff4dcf2042dc86b31dcac5beff9c/view.jpg"
    ]
  ]

  /** The list a title draws from: its own, or the "Views" list when it has none. */
  function ImagesFor(title: string): (images: seq<string>)
    ensures |images| >= 1
    ensures title in CategoryImages ==> images == CategoryImages[title]
    ensures title !in CategoryImages ==> images == CategoryImages[ViewsTitle]
  {
    if title in CategoryImages then CategoryImages[title] else CategoryImages[ViewsTitle]
  }

  /**
   * The image for position `index` of a category: the list is walked
   * cyclically, so every index picks some entry of the title's list.
   */
  function CategoryImage(title: string, index: nat): (url: string)
    ensures url in ImagesFor(title)
  {
    var images := ImagesFor(title);
    images[index % |images|]
  }

  /** The first lap takes the list in order. */
  lemma CategoryImageInOrder(title: string, index: nat)
    requires index < |ImagesFor(title)|
    ensures CategoryImage(title, index) == ImagesFor(title)[index]
  {
  }

  /** The pick repeats after one full lap of the list. */
  lemma {:induction false} CategoryImagePeriodic(title: string, index: nat)
    ensures CategoryImage(title, index + |ImagesFor(title)|) == CategoryImage(title, index)
  {
    var n := |ImagesFor(title)|;
    assert (index + n) % n == index % n by {
      assert index + n == (index / n + 1) * n + index % n;
    }
  }

  /** Every image of the list is picked by some index of the first lap. */
  lemma CategoryImageCoversList(title: string, url: string)
    requires url in ImagesFor(title)
    ensures exists k :: 0 <= k < |ImagesFor(title)| && CategoryImage(title, k) == url
  {
    var images := ImagesFor(title);
    var k :| 0 <= k < |images| && images[k] == url;
    CategoryImageInOrder(title, k);
  }

  /** A title without a list of its own looks exactly like "Views". */
  lemma UnknownTitleFallsBack(title: string, index: nat)
    requires title !in CategoryImages
    ensures CategoryImage(title, index) == CategoryImage(ViewsTitle, index)
  {
  }

  /** A category with a single curated image shows it at every index. */
  lemma SingleImageCategory(title: string, index: nat)
    requires |ImagesFor(title)| == 1
    ensures CategoryImage(title, index) == ImagesFor(title)[0]
  {
  }

  /** "Dance" is the one category with a cycle of five images. */
  lemma DanceCycle(index: nat)
    ensures |ImagesFor("Dance")| == 5
    ensures CategoryImage("Dance", index) == CategoryImages["Dance"][index % 5]
    ensures forall title :: title in CategoryImages && title != "Dance" ==> |CategoryImages[title]| == 1
  {
  }

  /**
   * A place's image: its own address when it has a non-empty one (an absent
   * or empty address is falsy), otherwise the category image at the length
   * of the place's name.
   */
  function PlaceImage(place: Place, categoryTitle: string): (url: string)
    ensures place.imageUrl.Some? && place.imageUrl.value != "" ==> url == place.imageUrl.value
    ensures (place.imageUrl.None? || place.imageUrl.value == "") ==>
      url in ImagesFor(categoryTitle) && url == CategoryImage(categoryTitle, |place.name|)
  {
    match place.imageUrl
    case Some(u) => if u != "" then u else CategoryImage(categoryTitle, |place.name|)
    case None => CategoryImage(categoryTitle, |place.name|)
  }

  /** Without an own image, renaming a place by a whole lap of the list keeps its image. */
  lemma PlaceImageByNameLength(place: Place, other: Place, categoryTitle: string)
    requires place.imageUrl.None? && other.imageUrl.None?
    requires |other.name| == |place.name| + |ImagesFor(categoryTitle)|
    ensures PlaceImage(other, categoryTitle) == PlaceImage(place, categoryTitle)
  {
    CategoryImagePeriodic(categoryTitle, |place.name|);
  }
}
