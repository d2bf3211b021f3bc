/** The record shape every stage of the pipeline produces: `ProductData` of
    `src/types.py`. Prices and ratings are exact reals rather than floats. */
module Types {
  import opened Wrappers

  datatype ProductData = ProductData(
    extractedAt: string,
    source: string,
    title: string,
    priceText: string,
    priceNumeric: Option<real>,
    ratingText: string,
    ratingNumeric: Option<real>,
    imageUrl: string,
    productUrl: string,
    reviewCountText: string,
    reviewCountNumeric: Option<int>)
}
