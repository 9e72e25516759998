/** Which stored image paths the course and workflow services unlink from the
    local disk: only relative upload paths, never inline data or remote URLs. */
module ImageFiles {
  import opened Wrappers
  import opened Strings

  /** `!image.startsWith('data:') && !image.startsWith('http')` */
  predicate IsLocalFile(path: string) {
    !HasPrefix(path, "data:") && !HasPrefix(path, "http")
  }

  /** The old image file an update unlinks: only when a non-empty new image is
      given and the old image is a non-empty local path. */
  function FileToRemoveOnUpdate(oldImage: Option<string>, newImage: Option<string>): (r: Option<string>)
    ensures r.Some? ==> oldImage == r && r.value != "" && IsLocalFile(r.value)
    ensures r.Some? <==> Truthy(newImage) && Truthy(oldImage) && IsLocalFile(oldImage.value)
  {
    if Truthy(newImage) && Truthy(oldImage) && IsLocalFile(oldImage.value) then oldImage else None
  }

  /** The image file a delete unlinks. */
  function FileToRemoveOnDelete(image: Option<string>): (r: Option<string>)
    ensures r.Some? ==> image == r && r.value != "" && IsLocalFile(r.value)
    ensures r.Some? <==> Truthy(image) && IsLocalFile(image.value)
  {
    if Truthy(image) && IsLocalFile(image.value) then image else None
  }

  /** Remote and inline images are never unlinked, whatever the update. */
  lemma RemoteImagesAreKept(oldImage: string, newImage: Option<string>)
    requires HasPrefix(oldImage, "http") || HasPrefix(oldImage, "data:")
    ensures FileToRemoveOnUpdate(Some(oldImage), newImage) == None
    ensures FileToRemoveOnDelete(Some(oldImage)) == None
  {
  }

  /** An update that sends no image, or an empty one, unlinks nothing. */
  lemma NoNewImageKeepsFile(oldImage: Option<string>, newImage: Option<string>)
    requires !Truthy(newImage)
    ensures FileToRemoveOnUpdate(oldImage, newImage) == None
  {
  }
}
