/**
 * The row `parse_detail_page` returns (z_scrapper.py:188-196 and 205-213), and that
 * `build_email_body`, `pick_new` and the delta selection read. Every row the
 * scraper builds has all seven keys, so each is a plain field.
 */
module Records {

  datatype Listing = Listing(
    priceText: string,
    beds: string,
    baths: string,
    area: string,
    areaUnit: string,
    address: string,
    link: string)
}
