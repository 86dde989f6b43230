/** The item shapes of the wishlist: what a caller hands to `addItem`, and the
    item the read path reconstructs from an event. */
module WishlistTypes {
  import opened Options

  /** `WishlistPayload`. Optional fields are None when undefined. */
  datatype Payload = Payload(
    id: Option<string>,
    title: string,
    link: Option<string>,
    image: Option<string>,
    notes: Option<string>,
    targetPriceSats: real,
    targetPriceEUR: Option<real>,
    currentPriceSats: Option<real>,
    sourcePriceEUR: Option<real>,
    source: Option<string>)

  /** `WishlistItem`. `status` is kept as the raw string the blob carried. */
  datatype Item = Item(
    id: string,
    createdAt: int,
    title: string,
    link: Option<string>,
    image: Option<string>,
    notes: Option<string>,
    targetPriceSats: real,
    targetPriceEUR: Option<real>,
    currentPriceSats: Option<real>,
    sourcePriceEUR: Option<real>,
    source: Option<string>,
    status: string,
    eventId: string)
}
