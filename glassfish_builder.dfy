/**
 * The build step's settings and the on-the-fly checks of its form fields. The
 * settings are fixed when the step is built; the checks are pure functions of
 * the text the user typed, each giving ok, a warning or an error.
 */
module GlassFishBuilder {
  import opened Wrappers
  import opened JavaText

  /** The build step's settings; the four text fields are stored trimmed. */
  datatype Builder = Builder(
    installGlassFish: bool, zipBundleURL: string, createCluster: bool, clusterSize: string,
    clusterName: string, instanceNamePrefix: string, startCluster: bool)

  /** No space char at either end. */
  predicate Trimmed(s: string) {
    |s| > 0 ==> !IsSpace(s[0]) && !IsSpace(s[|s| - 1])
  }

  /** The data-bound constructor: the flags kept, the text fields trimmed. */
  function NewBuilder(installGlassFish: bool, zipBundleURL: string, createCluster: bool, clusterSize: string,
                      clusterName: string, instanceNamePrefix: string, startCluster: bool): (b: Builder)
    ensures b.installGlassFish == installGlassFish && b.createCluster == createCluster
    ensures b.startCluster == startCluster
    ensures Trimmed(b.zipBundleURL) && Trimmed(b.clusterSize) && Trimmed(b.clusterName)
    ensures Trimmed(b.instanceNamePrefix)
    ensures b.zipBundleURL == Trim(zipBundleURL) && b.clusterSize == Trim(clusterSize)
    ensures b.clusterName == Trim(clusterName) && b.instanceNamePrefix == Trim(instanceNamePrefix)
  {
    Builder(installGlassFish, Trim(zipBundleURL), createCluster, Trim(clusterSize),
            Trim(clusterName), Trim(instanceNamePrefix), startCluster)
  }

  /** numInstances: the cluster size as an integer, -1 when it is not one. */
  function NumInstances(b: Builder): (r: int)
    ensures r == -1 || IsInt32(r)
    ensures ParseInt(b.clusterSize).Some? ==> r == ParseInt(b.clusterSize).value
    ensures ParseInt(b.clusterSize).None? ==> r == -1
  {
    match ParseInt(b.clusterSize)
      case Some(n) => n
      case None => -1
  }

  /** The outcome of a form check. */
  datatype FormValidation = Ok | Warning(message: string) | Error(message: string)

  /** doCheckClusterName: the trimmed name must not be empty and should be at most 99 chars. */
  function DoCheckClusterName(value: string): (r: FormValidation)
    ensures r.Error? <==> |Trim(value)| == 0
    ensures r.Warning? <==> |Trim(value)| > 99
    ensures r.Error? ==> r.message == "Please set the Cluster Name"
    ensures r.Warning? ==> r.message == "Warning: Cluster Name is very long."
  {
    var v := Trim(value);
    if |v| == 0 then Error("Please set the Cluster Name")
    else if |v| > 99 then Warning("Warning: Cluster Name is very long.")
    else Ok
  }

  /** doCheckInstanceNamePrefix: the trimmed prefix must not be empty and should be at most 99 chars. */
  function DoCheckInstanceNamePrefix(value: string): (r: FormValidation)
    ensures r.Error? <==> |Trim(value)| == 0
    ensures r.Warning? <==> |Trim(value)| > 99
    ensures r.Error? ==> r.message == "Please set the Instance Name Prefix"
    ensures r.Warning? ==> r.message == "Warning: Instance Name Prefix is very long."
  {
    var v := Trim(value);
    if |v| == 0 then Error("Please set the Instance Name Prefix")
    else if |v| > 99 then Warning("Warning: Instance Name Prefix is very long.")
    else Ok
  }

  /**
   * doCheckClusterSize: the raw text must not be empty; its trimmed value, -1 when it
   * is not an integer, gets a warning above 99 and an error below 1.
   */
  function DoCheckClusterSize(value: string): (r: FormValidation)
    ensures |value| == 0 ==> r == Error("Please set the Cluster Size")
    ensures r.Warning? ==> r.message == "Are you sure ?"
    ensures |value| > 0 && r.Error? ==> r.message == "Invalid Cluster Size!"
  {
    if |value| == 0 then Error("Please set the Cluster Size")
    else
      var size := match ParseInt(Trim(value)) case Some(n) => n case None => -1;
      if size > 99 then Warning("Are you sure ?")
      else if size < 1 then Error("Invalid Cluster Size!")
      else Ok
  }

  /* --------------------------------------------------------------- lemmas */

  /** Building the step again from its own stored settings changes nothing. */
  lemma NewBuilderIdempotent(installGlassFish: bool, zipBundleURL: string, createCluster: bool, clusterSize: string,
                             clusterName: string, instanceNamePrefix: string, startCluster: bool)
    ensures var b := NewBuilder(installGlassFish, zipBundleURL, createCluster, clusterSize,
                                clusterName, instanceNamePrefix, startCluster);
      NewBuilder(b.installGlassFish, b.zipBundleURL, b.createCluster, b.clusterSize,
                 b.clusterName, b.instanceNamePrefix, b.startCluster) == b
  {
    TrimIdempotent(zipBundleURL);
    TrimIdempotent(clusterSize);
    TrimIdempotent(clusterName);
    TrimIdempotent(instanceNamePrefix);
  }

  /** A cluster size written as a 32-bit integer, with spaces around it or not, is read back as that integer. */
  lemma NumInstancesOfInt(n: int, pad: string, installGlassFish: bool, zipBundleURL: string, createCluster: bool,
                          clusterName: string, instanceNamePrefix: string, startCluster: bool)
    requires IsInt32(n) && AllSpace(pad)
    ensures NumInstances(NewBuilder(installGlassFish, zipBundleURL, createCluster, pad + IntToString(n) + pad,
                                    clusterName, instanceNamePrefix, startCluster)) == n
  {
    var d := IntToString(n);
    assert !IsSpace(d[0]) && !IsSpace(d[|d| - 1]);
    TrimPadded(pad, d);
    ParseIntToString(n);
  }

  /** A name check fails exactly on text made of space chars only. */
  lemma NameChecksErrorIff(value: string)
    ensures DoCheckClusterName(value).Error? <==> AllSpace(value)
    ensures DoCheckInstanceNamePrefix(value).Error? <==> AllSpace(value)
  {
    TrimEmptyIff(value);
  }

  /** The stored (trimmed) name gets the same verdict as the text typed into the form. */
  lemma NameChecksAgreeOnStored(value: string)
    ensures DoCheckClusterName(Trim(value)) == DoCheckClusterName(value)
    ensures DoCheckInstanceNamePrefix(Trim(value)) == DoCheckInstanceNamePrefix(value)
  {
    TrimIdempotent(value);
  }

  /**
   * The size check agrees with the step built from the same text: ok exactly when the
   * step plans 1..99 instances, a warning when more, an error when fewer.
   */
  lemma ClusterSizeCheckMatchesNumInstances(value: string, installGlassFish: bool, zipBundleURL: string,
                                            createCluster: bool, clusterName: string, instanceNamePrefix: string,
                                            startCluster: bool)
    ensures var n := NumInstances(NewBuilder(installGlassFish, zipBundleURL, createCluster, value,
                                             clusterName, instanceNamePrefix, startCluster));
      && (DoCheckClusterSize(value) == Ok <==> 1 <= n <= 99)
      && (DoCheckClusterSize(value).Warning? <==> n > 99)
      && (DoCheckClusterSize(value).Error? <==> n < 1)
  {
    if |value| == 0 {
      assert Trim(value) == value;
    }
  }
}
