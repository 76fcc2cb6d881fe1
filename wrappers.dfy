/** Option, Result and the error conditions the bookkeeping layer signals. */
module Wrappers {

  datatype Option<T> = None | Some(value: T)

  /** The thrown errors of the core, named by what they mean. */
  datatype Error =
    | ComponentNotFound   // an entity does not hold the key (entity.ts getComponent, setComponent)
    | UnknownComponent    // a key resolves to no registered proxy class
    | PrefabNotFound      // no prefab registered under the name
    | TypeError           // a JavaScript TypeError: a property read or write through `undefined`
                          // (entity.ts setComponent, removeComponent of a store or proxy the entity
                          // does not hold) or redefining an accessor property (entity.ts addComponent)

  datatype Result<T> = Ok(value: T) | Err(error: Error)

  /** The outcome of an operation that returns nothing but may throw. */
  datatype Outcome = Pass | Fail(error: Error)
}
