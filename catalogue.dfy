/** `PRODUCT_COPY` and `ProductPage`: a finite table from product id to its
    copy, and the page built from one entry or "Product not found". */
module Catalogue {
  import Forms

  /** One `PRODUCT_COPY` entry; `seo` is empty where the copy has none */
  datatype ProductCopy = ProductCopy(title: string, img: string, fallback: string,
                                     bullets: seq<string>, seo: seq<string>)

  /** What `ProductPage` shows: the image with its placeholder, the title,
      the bullet list, the paragraphs, and the quote link */
  datatype ProductView =
    | ProductNotFound
    | ProductDetails(title: string, img: string, placeholder: string, bullets: seq<string>,
                     paragraphs: seq<string>, quoteHref: string)

  /** `ProductPage({id})`: the details of the entry under id, in the
      table's order, with a quote link that pre-fills the entry's title;
      "Product not found" for every id the table does not declare */
  function ProductPage(table: map<string, ProductCopy>, id: string): (view: ProductView)
    ensures view.ProductNotFound? <==> id !in table
    ensures id in table ==>
      && view.title == table[id].title
      && view.img == table[id].img && view.placeholder == table[id].fallback
      && view.bullets == table[id].bullets && view.paragraphs == table[id].seo
      && Forms.InitialProduct(view.quoteHref) == table[id].title
  {
    if id !in table then ProductNotFound
    else
      var data := table[id];
      Forms.QuoteHrefPrefills(data.title);
      ProductDetails(data.title, data.img, data.fallback, data.bullets, data.seo, Forms.QuoteHref(data.title))
  }
}
