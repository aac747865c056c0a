// The native gameplay tags that name the tick types a game loop serves.
// A gameplay tag is identified by its dotted name.

module TickTypes {

  type GameplayTag = string

  const TickTypeRoot: GameplayTag := "Flecs.TickType"
  const MainLoop: GameplayTag := "Flecs.TickType.MainLoop"
  const PrePhysics: GameplayTag := "Flecs.TickType.PrePhysics"
  const DuringPhysics: GameplayTag := "Flecs.TickType.DuringPhysics"
  const PostPhysics: GameplayTag := "Flecs.TickType.PostPhysics"
  const PostUpdateWork: GameplayTag := "Flecs.TickType.PostUpdateWork"

  /** The five tick types the plugin defines. */
  predicate IsKnownTickType(t: GameplayTag)
  {
    t == MainLoop || t == PrePhysics || t == DuringPhysics || t == PostPhysics || t == PostUpdateWork
  }
}
