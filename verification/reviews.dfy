/** The review record exchanged with the backend, and the payload the create
    and edit dialogs send. */
module Reviews {
  import opened Base

  /** A timestamp as it arrives on the wire: a plain string, a `{ $date }`
      wrapper, or some other truthy value of neither shape. */
  datatype Timestamp = PlainDate(text: string) | WrappedDate(date: string) | OtherShape

  /** A review as listed by the backend; `id` is the `_id.$oid` string. */
  datatype Review = Review(
    id: string,
    name: string,
    shopName: string,
    shopAddress: string,
    rating: int,
    body: string,
    image: string,
    category: string,
    timestamp: Option<Timestamp>)

  /** The body of `POST /insertItems` and `PUT /updateItem/<id>`, field for
      field (`shop_name`, `shop_address`, `review`, ...). */
  datatype ReviewPayload = ReviewPayload(
    name: string,
    shopName: string,
    shopAddress: string,
    rating: int,
    review: string,
    image: string,
    category: string,
    timestamp: string)

  /** One entry of the `/likes/batch-count` response. */
  datatype CountEntry = CountEntry(id: string, count: int)
}
