/** A movie tile of the home page: its link, its poster and its shortened description. */
module MovieCard {
  import opened Wrappers
  import opened CinemaTypes
  import opened JsText
  import opened Collections
  import AppRoutes

  const MaxDescription := 100
  const PosterPlaceholder := "https://via.placeholder.com/300x450?text=Нет+постера"

  /** The description as the tile shows it: up to 100 characters, then "..." when cut. */
  function ShortDescription(description: string): (shown: string)
    ensures |description| <= MaxDescription ==> shown == description
    ensures |description| > MaxDescription ==> shown == description[..MaxDescription] + "..."
    ensures |shown| <= MaxDescription + 3
    ensures shown[..Min(MaxDescription, |description|)] == description[..Min(MaxDescription, |description|)]
  {
    if |description| > MaxDescription then description[..MaxDescription] + "..." else description
  }

  function Min(a: int, b: int): int {
    if a <= b then a else b
  }

  /** Shortening a shown description again changes nothing. */
  lemma ShortDescriptionIdempotent(description: string)
    ensures ShortDescription(ShortDescription(description)) == ShortDescription(description)
  {
    if |description| > MaxDescription {
      var shown := ShortDescription(description);
      assert |shown| == MaxDescription + 3;
      assert shown[..MaxDescription] == description[..MaxDescription];
    }
  }

  /** `poster_url || placeholder`, used by the tile and by the details page. */
  function PosterSrc(posterUrl: string): (src: string)
    ensures posterUrl != "" ==> src == posterUrl
    ensures posterUrl == "" ==> src == PosterPlaceholder
    ensures src != ""
  {
    if posterUrl != "" then posterUrl else PosterPlaceholder
  }

  /** The tile's link. */
  function MovieLink(id: int): (link: string)
    ensures |link| > 8 && link[..8] == "/movies/" && link[8..] == IntToString(id)
    ensures '/' !in link[8..]
  {
    "/movies/" + IntToString(id)
  }

  /** The link of a movie with a non-negative id leads to the details route, whose id parameter reads back as the id. */
  lemma MovieLinkOpensDetails(id: nat)
    ensures AppRoutes.Resolve(AppRoutes.PathSegments(MovieLink(id))) == AppRoutes.MovieDetailsPage(IntToString(id))
    ensures ParseDigits(NatToString(id)) == id
  {
    var digits := IntToString(id);
    assert '/' !in digits by {
      assert forall i :: 0 <= i < |digits| ==> IsDigit(digits[i]);
    }
    assert MovieLink(id) == "/" + "movies" + "/" + digits;
    AppRoutes.TwoSegmentPath("movies", digits);
    ParseNatToString(id);
  }
}
