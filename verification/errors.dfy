/** The Python exceptions the two adapters can raise while handling one message. */
module Errors {

  datatype Error =
    /** `d[key]` on a dict without `key` (KeyError). */
    | MissingKey(key: string)
    /** Looking up the book of a pair that has none (KeyError). */
    | MissingBook(pair: string)
    /** `del book[side][price]` for a price not on that side (KeyError). */
    | MissingLevel(price: real)
    /** Subscripting, iterating, `in` or `Decimal` on a value of the wrong JSON type (TypeError). */
    | TypeError
    /** `.split` on a topic that is not a string (AttributeError). */
    | AttributeError
    /** `Decimal(x)` on a string that is not a decimal literal (InvalidOperation), or on a list (ValueError). */
    | InvalidDecimal
    /** The HTTP depth request of Bitmax's `_snapshot` raised; its reply is not modelled. */
    | RequestFailed
}
