/** Outcome types shared by the coordinate tools: an optional value and a
    value-or-error result standing for the exceptions the Python code raises. */
module Results {

  datatype Option<+T> = None | Some(value: T)

  /** The failures the coordinate tools can raise. */
  datatype Error =
    | ShapeMismatch   // the x, y and z coordinate arrays differ in length
    | NoObject        // the mask holds no true voxel, so find_objects(mask)[0] fails

  datatype Result<+T> = Ok(value: T) | Err(error: Error)
}
