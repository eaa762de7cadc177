/** A projectile (Bullet.cs): scheduled for destruction `lifetime` seconds
    after it is created, excluded from collisions with the player at creation,
    and dispatching its trigger contacts on the other collider's tag. */
module Projectile {
  import opened Engine

  /** Inspector settings of the bullet prefab. */
  datatype Config = Config(lifetime: real, damage: int, destroyOnHit: bool)

  /** What Start finds in the scene: a Player-tagged object, whether that
      object has a Collider2D, and whether the bullet itself has one. */
  datatype Scene = Scene(playerFound: bool, playerHasCollider: bool, bulletHasCollider: bool)

  /** A live bullet: the time its scheduled Destroy fires, and whether the
      physics engine was told to ignore contacts with the player. */
  datatype Bullet = Bullet(expiresAt: real, ignoresPlayer: bool)

  /** The outcome of one trigger contact: the damage handed to an Enemy
      component, if any, and whether the bullet destroys itself. */
  datatype Contact = Contact(enemyDamage: Option<int>, destroyed: bool)

  /** Start: Destroy is scheduled after `lifetime`; the player's collider is
      ignored when the player and both colliders exist. A collider added
      later by Start itself is not in that exclusion. */
  function Spawn(c: Config, now: real, scene: Scene): (b: Bullet)
    ensures b.expiresAt - now == c.lifetime
    ensures b.ignoresPlayer <==>
              scene.playerFound && scene.playerHasCollider && scene.bulletHasCollider
  {
    Bullet(now + c.lifetime, scene.playerFound && scene.playerHasCollider && scene.bulletHasCollider)
  }

  /** Whether the scheduled Destroy has fired by time `now`. */
  predicate Expired(b: Bullet, now: real) {
    now >= b.expiresAt
  }

  /** Whether the physics engine reports a contact with a collider of this tag. */
  predicate Touches(b: Bullet, tag: Tag) {
    !(tag == PlayerTag && b.ignoresPlayer)
  }

  /** OnTriggerEnter2D: an Enemy-tagged collider takes `damage` through its
      Enemy component (when it has one) and the bullet goes iff destroyOnHit;
      a Wall or Obstacle always destroys the bullet without damage; any other
      tag changes nothing. */
  function OnContact(c: Config, tag: Tag, hasEnemy: bool): (r: Contact)
    ensures r.enemyDamage.Some? <==> tag == EnemyTag && hasEnemy
    ensures r.enemyDamage.Some? ==> r.enemyDamage.value == c.damage
    ensures r.destroyed <==> (tag == EnemyTag && c.destroyOnHit) || tag == WallTag || tag == ObstacleTag
  {
    if tag == EnemyTag then
      Contact(if hasEnemy then Some(c.damage) else None, c.destroyOnHit)
    else if tag == WallTag || tag == ObstacleTag then
      Contact(None, true)
    else
      Contact(None, false)
  }

  /** Every bullet, whatever the scene, is gone exactly from `lifetime`
      seconds after its creation on. */
  lemma ExpiresAfterLifetime(c: Config, now: real, scene: Scene, t: real)
    ensures Expired(Spawn(c, now, scene), t) <==> t >= now + c.lifetime
  {
  }

  /** With the player and both colliders present, the player is never touched. */
  lemma PlayerExcluded(c: Config, now: real, scene: Scene)
    requires scene.playerFound && scene.playerHasCollider && scene.bulletHasCollider
    ensures !Touches(Spawn(c, now, scene), PlayerTag)
  {
  }
}
