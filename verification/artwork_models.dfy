/** The entities of artwork/models.py: an Artwork with its moderation status,
    feedback and category, and the Like relation between users and artworks. */
module ArtworkModels {
  import opened Common
  import opened UsersModels

  type ArtworkId = nat

  /** The moderation status: the three STATUS_CHOICES. */
  datatype Status = Pending | Approved | Rejected

  /** The five CATEGORY_CHOICES. */
  datatype Category = Sketch | Canvas | WallArt | Digital | Photography

  /** `feedback` is nullable and may be blank: `None` is null. */
  datatype Artwork = Artwork(
    title: string,
    description: string,
    artist: UserId,
    status: Status,
    feedback: Option<string>,
    category: Category)

  /** An artwork as the field defaults complete a submission: pending, no
      feedback, and category "sketch" unless the submission names one. */
  function NewArtwork(title: string, description: string, artist: UserId, category: Option<Category>): (a: Artwork)
    ensures a.status == Pending && a.feedback == None && a.artist == artist
    ensures category.Some? ==> a.category == category.value
    ensures category.None? ==> a.category == Sketch
  {
    Artwork(title, description, artist, Pending,  None,
            if category.Some? then category.value else Sketch)
  }

  /** A Like row. `unique_together = ('user', 'artwork')` makes the table a
      set of such pairs. */
  datatype Like = Like(user: UserId, artwork: ArtworkId)
}
