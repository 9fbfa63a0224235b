/** The ways one of the model builders can reject its inputs. Each builder of
    the assembly engine validates its inputs with assertions; a failed
    assertion ends the period, so each is modelled as an error value. */
module Failures {

  datatype Error =
    | TableCountMismatch     // a per-product table does not have one entry per product
    | NonPositiveDimension   // dimF, dimC, dimFC or a section height is not positive
    | EmptyConcatenation     // stacking an empty list of arrays
    | ShapeMismatch          // a built array does not have the shape the dimensions promise
    | NonPositiveCost        // an objective coefficient is not positive
    | NonPositiveSize        // a factory or customer count is not positive
    | EmptyProductList
    | EmptyFactoryList
    | NonPositiveEfficiency
    | TooManyFactoryNames    // a product lists more factories than the factory list holds
    | MissingKey             // a per-product table has no entry for a product
    | EfficiencyExhausted    // the efficiency values ran out while filling factory slots
    | DivisionByZero         // a product with no factories when deriving customer counts
    | EmptyGroupList
    | EmptyGroup
    | RepeatedGroup          // two groups hold the same products in some order
    | RepeatedProduct        // a product appears twice inside one group
    | UnknownProduct         // a group names a product outside the product list
    | DegenerateMatrix       // the stacked constraint matrix has an all-zero row or column
    | NonPositiveVolume      // a demand or capacity volume is not positive

  datatype Result<+T> = Ok(value: T) | Err(error: Error) {

    predicate IsFailure() {
      Err?
    }

    function PropagateFailure<U>(): Result<U>
      requires Err?
    {
      Err(error)
    }

    function Extract(): T
      requires Ok?
    {
      value
    }
  }

  /** A check that carries no value: the group validation passes or fails. */
  datatype Outcome = Pass | Fail(error: Error) {

    predicate IsFailure() {
      Fail?
    }

    function PropagateFailure<U>(): Result<U>
      requires Fail?
    {
      Err(error)
    }
  }
}
