/** Outcomes of the generator's steps: a value, or the exception that aborts the run. */
module Results {

  /** The exceptions the placement code can raise. Any of them ends the whole run. */
  datatype Fault =
    | EmptyRandRange    // random.randint(lo, hi) with hi < lo
    | BadSampleSize     // random.sample(population, k) with k < 0 or k > len(population)
    | ZeroDivision      // resize_sign on an image whose longer side is 0
    | ZeroSizedResize   // the imaging library refusing a resize target with a side of 0

  datatype Result<T> = Success(value: T) | Failure(error: Fault)
}
