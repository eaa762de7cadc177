/** Stand-ins for the Unity engine facilities the combat scripts touch:
    component references that may be null, and the tag strings that
    colliders are compared against with CompareTag. */
module Engine {

  /** A component reference that may be null (GetComponent's result). */
  datatype Option<+T> = None | Some(value: T) {

    /** The referenced value, or `default` when the reference is null. */
    function GetOr(default: T): T {
      match this
      case Some(v) => v
      case None => default
    }
  }

  /** The tags the scripts test with CompareTag; every other tag is `OtherTag`. */
  datatype Tag = PlayerTag | EnemyTag | BulletTag | WallTag | ObstacleTag | OtherTag
}
