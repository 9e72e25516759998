/** How the course controller names an uploaded image and turns a stored
    image path into the URL it answers with. */
module ImageUrls {
  import opened Wrappers
  import opened Strings
  import ImageFiles

  const DefaultBaseUrl := "http://localhost:3000"

  /** `process.env.BACKEND_URL || 'http://localhost:3000'` */
  function BaseUrl(backendUrl: Option<string>): (r: string)
    ensures Truthy(backendUrl) ==> r == backendUrl.value
    ensures !Truthy(backendUrl) ==> r == DefaultBaseUrl
  {
    if Truthy(backendUrl) then backendUrl.value else DefaultBaseUrl
  }

  /** An image that is already an absolute URL or inline data. */
  predicate IsAbsolute(path: string) {
    HasPrefix(path, "http://") || HasPrefix(path, "https://") || HasPrefix(path, "data:")
  }

  /** `transformImageUrl`: no image stays no image, absolute URLs and inline
      data are returned as they are, any other path is put after the base. */
  function TransformImageUrl(baseUrl: string, imagePath: Option<string>): (r: Option<string>)
    ensures r.None? <==> !Truthy(imagePath)
    ensures Truthy(imagePath) && IsAbsolute(imagePath.value) ==> r == imagePath
    ensures Truthy(imagePath) && !IsAbsolute(imagePath.value) ==> r == Some(baseUrl + imagePath.value)
  {
    if !Truthy(imagePath) then None
    else if HasPrefix(imagePath.value, "http://") || HasPrefix(imagePath.value, "https://") then imagePath
    else if HasPrefix(imagePath.value, "data:") then imagePath
    else Some(baseUrl + imagePath.value)
  }

  /** The path stored for an uploaded course image. */
  function UploadPath(filename: string): (r: string)
    ensures HasPrefix(r, "/assets/course/") && r[|"/assets/course/"|..] == filename
  {
    "/assets/course/" + filename
  }

  /** The image a create or update stores: the uploaded file when there is
      one, whatever the request says, else the request's own image. */
  function StoredImage(requestImage: Option<string>, uploaded: Option<string>): (r: Option<string>)
    ensures uploaded.Some? ==> r == Some(UploadPath(uploaded.value))
    ensures uploaded.None? ==> r == requestImage
  {
    if uploaded.Some? then Some(UploadPath(uploaded.value)) else requestImage
  }

  /** An uploaded image is a local file: it is answered under the base URL,
      and it is the kind of file an update or delete unlinks. */
  lemma {:induction false} UploadIsLocal(baseUrl: string, filename: string)
    ensures TransformImageUrl(baseUrl, Some(UploadPath(filename))) == Some(baseUrl + UploadPath(filename))
    ensures ImageFiles.IsLocalFile(UploadPath(filename))
  {
    var p := UploadPath(filename);
    assert p[0] == '/';
    assert !IsAbsolute(p) by {
      assert "http://"[0] != '/' && "https://"[0] != '/' && "data:"[0] != '/';
    }
    assert "http"[0] != '/';
  }

  /** Transforming an answer again changes nothing when the base is an
      absolute `http` or `https` URL. */
  lemma {:induction false} TransformIdempotent(baseUrl: string, imagePath: Option<string>)
    requires HasPrefix(baseUrl, "http://") || HasPrefix(baseUrl, "https://")
    ensures TransformImageUrl(baseUrl, TransformImageUrl(baseUrl, imagePath)) == TransformImageUrl(baseUrl, imagePath)
  {
    if Truthy(imagePath) && !IsAbsolute(imagePath.value) {
      var u := baseUrl + imagePath.value;
      if HasPrefix(baseUrl, "http://") {
        assert u[..7] == baseUrl[..7];
      } else {
        assert u[..8] == baseUrl[..8];
      }
    }
  }
}
