/**
 * `SLDFolderUploader`: the `.sld` files of a folder are zipped one by one
 * next to themselves and each zip is POSTed to the styles of a GeoServer
 * workspace under the file's name without extension. The folder listing
 * and the status of each upload are inputs; the zip and HTTP calls are
 * modelled as the requests they make.
 */
module SldUpload {
  import opened PyStr
  import opened PosixPath
  import GeoserverUrl

  /** `self.url`: the styles resource of the workspace. */
  function StylesUrl(geoserverUrl: String, workspace: String): String {
    GeoserverUrl.BaseUrl(geoserverUrl) + "/rest/workspaces/" + workspace + "/styles"
  }

  /** The entries of a folder listing that `glob` matches with `*.sld`, in listing order. */
  function SldNames(entries: seq<String>): (names: seq<String>)
    ensures forall k :: 0 <= k < |names| ==> MatchesSld(names[k])
    ensures forall e :: e in names <==> e in entries && MatchesSld(e)
  {
    if entries == [] then []
    else
      var n := |entries| - 1;
      SldNames(entries[..n]) + (if MatchesSld(entries[n]) then [entries[n]] else [])
  }

  /** `self.filelist`: each matched name joined to the folder. */
  function FileList(folder: String, entries: seq<String>): (files: seq<String>)
    ensures |files| == |SldNames(entries)|
    ensures forall k :: 0 <= k < |files| ==> files[k] == Join(folder, SldNames(entries)[k])
  {
    var names := SldNames(entries);
    seq(|names|, k requires 0 <= k < |names| => Join(folder, names[k]))
  }

  /** The state `__init__` sets up; nothing changes it afterwards. */
  datatype Uploader = Uploader(url: String, folder: String, workspace: String,
                               user: String, password: String, filelist: seq<String>)

  /** `SLDFolderUploader(geoserver_url, workspace, folder, user, password)` over a folder listing. */
  function NewUploader(geoserverUrl: String, workspace: String, folder: String, entries: seq<String>,
                       user: String, password: String): (u: Uploader)
    ensures u.url == StylesUrl(geoserverUrl, workspace)
    ensures u.filelist == FileList(folder, entries)
  {
    Uploader(StylesUrl(geoserverUrl, workspace), folder, workspace, user, password, FileList(folder, entries))
  }

  /** `os.path.splitext(sld_path)[0] + '.zip'`. */
  function ZipPath(sldPath: String): String {
    SplitExt(sldPath).0 + ".zip"
  }

  /** `os.path.splitext(os.path.basename(sld_path))[0]`: the style name on GeoServer. */
  function StyleName(sldPath: String): String {
    SplitExt(Basename(sldPath)).0
  }

  /** For a listed file, the zip sits in the same folder, with `.sld` replaced by `.zip`. */
  lemma ZipPathOfListed(folder: String, name: String)
    requires MatchesSld(name)
    ensures ZipPath(Join(folder, name)) == Join(folder, name[..|name| - 4] + ".zip")
  {
    MatchesSldLength(name);
    var stem := name[..|name| - 4];
    var zip := stem + ".zip";
    assert zip[0] == name[0];
    JoinRelative(folder, name);
    JoinRelative(folder, zip);
    SplitExtSld(Dir(folder), name);
    assert Dir(folder) + stem + ".zip" == Dir(folder) + zip;
  }

  /** For a listed file, the zip entry is the file's name and the style name is that name without `.sld`. */
  lemma StyleNameOfListed(folder: String, name: String)
    requires MatchesSld(name)
    ensures Basename(Join(folder, name)) == name
    ensures StyleName(Join(folder, name)) == name[..|name| - 4]
  {
    BasenameJoin(folder, name);
    SplitExtSld([], name);
    assert [] + name == name;
  }

  lemma ListedFile(folder: String, name: String, file: String)
    requires MatchesSld(name) && file == Join(folder, name)
    ensures |name| > 4 && name[..|name| - 4] + ".sld" == name
    ensures ZipPath(file) == Join(folder, name[..|name| - 4] + ".zip")
    ensures Basename(file) == name
    ensures StyleName(file) == name[..|name| - 4]
  {
    MatchesSldLength(name);
    var stem := name[..|name| - 4];
    assert stem + ".sld" == name by {
      assert name == stem + name[|name| - 4..];
    }
    assert ZipPath(file) == Join(folder, stem + ".zip") by {
      ZipPathOfListed(folder, name);
    }
    assert Basename(file) == name && StyleName(file) == stem by {
      StyleNameOfListed(folder, name);
    }
  }

  /** `zip_obj.write(sld_path, sld_basename_ext)` into the zip at `zipPath`. */
  datatype ZipWrite = ZipWrite(zipPath: String, sldPath: String, arcname: String)

  /** `zip_slds`: one zip per listed file, in list order. */
  method ZipSlds(u: Uploader) returns (writes: seq<ZipWrite>)
    ensures |writes| == |u.filelist|
    ensures forall i :: 0 <= i < |writes| ==>
      writes[i] == ZipWrite(ZipPath(u.filelist[i]), u.filelist[i], Basename(u.filelist[i]))
  {
    writes := [];
    for i := 0 to |u.filelist|
      invariant |writes| == i
      invariant forall k :: 0 <= k < i ==>
        writes[k] == ZipWrite(ZipPath(u.filelist[k]), u.filelist[k], Basename(u.filelist[k]))
    {
      var sldPath := u.filelist[i];
      var sldPathZip := ZipPath(sldPath);
      var sldBasenameExt := Basename(sldPath);
      writes := writes + [ZipWrite(sldPathZip, sldPath, sldBasenameExt)];
    }
  }

  /** The POST of one zip: `params={'name': styleName}`, `Content-Type: application/zip`. */
  datatype Post = Post(url: String, user: String, password: String, zipPath: String,
                       contentType: String, styleName: String)

  /** What the feedback shows for one file: the error or the success, with the file's name. */
  datatype Report = UploadFailed(sldBasenameExt: String) | Uploaded(sldBasenameExt: String)

  /** The POST that uploads the zip of `sldPath` under the file's name without extension. */
  function PostOf(u: Uploader, sldPath: String): Post {
    Post(u.url, u.user, u.password, ZipPath(sldPath), "application/zip", StyleName(sldPath))
  }

  /** The report of one upload, by whether `raise_for_status` passed. */
  function ReportOf(accepted: bool, sldPath: String): Report {
    if accepted then Uploaded(Basename(sldPath)) else UploadFailed(Basename(sldPath))
  }

  /** One iteration of the upload loop: the request it sends and what it reports. */
  datatype Upload = Upload(post: Post, report: Report)

  function UploadOf(u: Uploader, accepted: bool, sldPath: String): Upload {
    Upload(PostOf(u, sldPath), ReportOf(accepted, sldPath))
  }

  /**
   * `upload_zipfiles`: one POST per listed file, in list order;
   * `accepted[i]` is whether `raise_for_status` passed for file `i`. A
   * failed upload is reported and the loop goes on.
   */
  method UploadZipfiles(u: Uploader, accepted: seq<bool>) returns (uploads: seq<Upload>)
    requires |accepted| == |u.filelist|
    ensures |uploads| == |u.filelist|
    ensures forall i :: 0 <= i < |uploads| ==> uploads[i] == UploadOf(u, accepted[i], u.filelist[i])
  {
    uploads := [];
    for i := 0 to |u.filelist|
      invariant |uploads| == i
      invariant forall k :: 0 <= k < i ==> uploads[k] == UploadOf(u, accepted[k], u.filelist[k])
    {
      var sldPath := u.filelist[i];
      var post := PostOf(u, sldPath);
      var report := ReportOf(accepted[i], sldPath);
      uploads := uploads + [Upload(post, report)];
    }
  }

  /**
   * The algorithm: build the uploader, zip, then upload. Every matched
   * file of the folder is zipped and posted once, in listing order; each
   * POST sends the zip that was written for the same file, named after the
   * file without `.sld`, and the report names the file.
   */
  method UploadStylesToWorkspace(geoserverUrl: String, workspace: String, folder: String, entries: seq<String>,
                                 user: String, password: String, accepted: seq<bool>)
    returns (writes: seq<ZipWrite>, uploads: seq<Upload>)
    requires |accepted| == |SldNames(entries)|
    ensures |writes| == |SldNames(entries)| && |uploads| == |SldNames(entries)|
    ensures forall i :: 0 <= i < |writes| ==>
      var name := SldNames(entries)[i];
      writes[i] == ZipWrite(Join(folder, name[..|name| - 4] + ".zip"), Join(folder, name), name)
    ensures forall i :: 0 <= i < |uploads| ==>
      var name := SldNames(entries)[i];
      uploads[i].post == Post(StylesUrl(geoserverUrl, workspace), user, password, writes[i].zipPath,
                              "application/zip", name[..|name| - 4])
      && uploads[i].report == if accepted[i] then Uploaded(name) else UploadFailed(name)
    ensures forall i :: 0 <= i < |uploads| ==> uploads[i].post.styleName + ".sld" == writes[i].arcname
  {
    var folder1 := NewUploader(geoserverUrl, workspace, folder, entries, user, password);
    writes := ZipSlds(folder1);
    uploads := UploadZipfiles(folder1, accepted);
    var names := SldNames(entries);
    forall i | 0 <= i < |names|
      ensures writes[i] == ZipWrite(Join(folder, names[i][..|names[i]| - 4] + ".zip"), Join(folder, names[i]), names[i])
      ensures uploads[i].post == Post(StylesUrl(geoserverUrl, workspace), user, password, writes[i].zipPath,
                                      "application/zip", names[i][..|names[i]| - 4])
      ensures uploads[i].report == if accepted[i] then Uploaded(names[i]) else UploadFailed(names[i])
      ensures uploads[i].post.styleName + ".sld" == writes[i].arcname
    {
      ListedFile(folder, names[i], folder1.filelist[i]);
    }
  }

  /** A hidden `.sld` has no extension for `splitext`, which is why `glob`'s `*` leaving it out matters. */
  lemma HiddenFileHasNoExtension()
    ensures SplitExt(".sld") == (".sld", "")
  {
    var p := ".sld";
    assert '/' !in p;
    RFindIs(p, '.', 0);
    assert p[0..0] == [];
  }
}
