/**
 * The outcome of a hit query. A `hit_record` carries much more than the ray
 * parameter (point, normal, material, texture coordinates); the model keeps
 * only the parameter t, or nothing when the ray misses.
 */
module Hits {
  datatype Option<T> = None | Some(value: T)
}
