/** Failure-carrying datatypes shared by every module of the model. */
module Outcomes {

  /** A value that may be missing: Python's `None` or a dictionary key that is absent. */
  datatype Option<+T> = None | Some(value: T)

  /** Either a value or the error the Python code would raise or return instead. */
  datatype Result<+T, +E> = Success(value: T) | Failure(error: E)
}

/** The keys the views pass around. */
module Rows {

  /** A primary key of the Image or RecipeImage table, as the `<int:id>` route hands it over. */
  type Id = nat

  /** A primary key of the user table. */
  type UserId = nat
}
