/** The Item record: one product of the feed, keyed by its GTIN. */
module Items {

  datatype Item = Item(
    gtin: string,
    language: string,
    title: string,
    picture: string,
    description: string,
    price: string,
    stock: int)
}
