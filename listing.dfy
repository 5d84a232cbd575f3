/**
 * A product as the storefront pages receive it from GET /api/products. The
 * pages read every field through `|| ""` or `|| 0`, so a missing field is the
 * empty string or zero here.
 */
module Listings {
  import opened Text

  datatype Listing = Listing(
    id: nat,
    name: string,
    category: string,
    subcategory: string,
    price: int,
    mainImage: string,
    image: string,
    reviews: int)

  /** `p.main_image || p.image`: the picture a page shows for the product. */
  function Picture(p: Listing): (r: string)
    ensures r == "" <==> p.mainImage == "" && p.image == ""
  {
    OrElse(p.mainImage, p.image)
  }

  /** `!!p.price && !!p.name && !!(p.main_image || p.image)`: the product can be shown on a card. */
  predicate Displayable(p: Listing)
  {
    p.price != 0 && p.name != "" && Picture(p) != ""
  }
}
