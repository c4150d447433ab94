/** Shared vocabulary of the TrackStock backend model: optional values, the
    result of a route handler, the error taxonomy the handlers answer with, and
    the opaque instants the handlers stamp on records. */
module Common {

  /** A value that a request body, a document field or a lookup may lack
      (JavaScript `undefined` / `null`). */
  datatype Option<+T> = None | Some(value: T) {
    function GetOr(default: T): T {
      match this
      case Some(v) => v
      case None => default
    }
  }

  /** What a handler answers: a value on success, or the error it responded with. */
  datatype Result<+T> = Ok(value: T) | Err(error: Error)

  /** An instant (`new Date()`, `Date.now`): the model never inspects it. */
  type Time = int

  /** Exceptions thrown by the storage layer and turned into a catch-block response. */
  datatype Failure =
    | ValidationFailed   // a Mongoose schema validator or cast rejected a document
    | DuplicateKey       // a unique index (the _id or the barcode) rejected an insert
    | TypeFailure        // a JavaScript TypeError on a missing request field

  /** The responses of the handlers, one constructor per distinct message. */
  datatype Error =
    // api/routes/saleRoutes.js
    | MissingSaleFields
    | NonPositiveQuantity
    | ProductNotFound
    | InsufficientStock(available: int)
    | MissingCancelReason
    | SaleNotFound
    | SaleAlreadyCancelled
    // api/routes/inventoryRoutes.js
    | SessionNotFound
    | SessionCompleted
    | ProductNotInSession
    | SessionAlreadyCompleted
    | NegativeCount
    // api/routes/webhookRoutes.js
    | InvalidSignature
    | OutOfStock(productName: string)
    // api/controllers/categoryController.js
    | CategoryNameRequired
    | ParentCategoryNotFound
    | SelfParent
    | ParentCycle
    | CategoryNotFound
    | HasSubCategories
    // api/controllers/productBulkController.js
    | NoFile
    | RowErrors(rows: seq<RowError>)
    // the catch block of every handler
    | Unexpected(failure: Failure)

  /** One entry of the bulk upload's `errors` array: the CSV row number and the reason. */
  datatype RowError = RowError(row: nat, reason: RowProblem)

  datatype RowProblem =
    | UnknownCategory(name: string)
    | MissingRequiredFields
    | InvalidNumber
    | InvalidUnit
    | BarcodeExists(barcode: string)
    | BarcodeRepeated(barcode: string)

  /** True when a JavaScript string field is falsy: absent or empty. */
  predicate Blank(s: Option<string>) {
    s.None? || s.value == ""
  }
}
