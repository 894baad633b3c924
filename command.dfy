/** What the player can ask for during a tick. */
module Commands {
  import opened Directions

  datatype Command = Quit | Turn(towards: Direction)
}
